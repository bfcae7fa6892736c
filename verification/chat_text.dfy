/**
 * `parseTxt`: a chat log written as `role: content` lines. A line that starts with a word and a
 * colon opens a message; later lines that do not continue it; lines before the first such line
 * are dropped; a text with no such line at all becomes one `user` message. Every content is
 * trimmed and then cut at code fences.
 *
 * The two generations of the parser carry the same function, character for character.
 */
module ChatText {
  import opened Outcomes
  import opened JsText
  import opened JsonValue
  import opened CodeBlocks

  /** A message as the line grammar collects it, before trimming and fence splitting. */
  datatype Draft = Draft(role: string, content: string)

  predicate AllWordChars(s: string) {
    forall i :: 0 <= i < |s| ==> IsWordChar(s[i])
  }

  predicate NoTerminator(s: string) {
    forall i :: 0 <= i < |s| ==> !IsLineTerminator(s[i])
  }

  /** A role as a matching line yields it: a non-empty run of lower-case `\w` characters. */
  predicate IsRoleName(s: string) {
    |s| > 0 && forall i :: 0 <= i < |s| ==> IsWordChar(s[i]) && LowerChar(s[i]) == s[i]
  }

  lemma LowerRole(w: string)
    requires |w| > 0 && AllWordChars(w)
    ensures IsRoleName(ToLower(w))
  {
  }

  lemma LowerOfRoleName(w: string)
    requires IsRoleName(w)
    ensures ToLower(w) == w
  {
  }

  /** The length of the leading run of `\w` characters. */
  function WordRun(s: string): (n: nat)
    ensures n <= |s|
    ensures AllWordChars(s[..n])
    ensures n < |s| ==> !IsWordChar(s[n])
  {
    if |s| == 0 || !IsWordChar(s[0]) then 0
    else
      var n := WordRun(s[1..]);
      assert s[..n + 1] == [s[0]] + s[1..][..n];
      n + 1
  }

  /** The length of the leading run of characters a regular-expression `.` matches. */
  function LineLength(s: string): (n: nat)
    ensures n <= |s|
    ensures NoTerminator(s[..n])
    ensures n < |s| ==> IsLineTerminator(s[n])
  {
    if |s| == 0 || IsLineTerminator(s[0]) then 0
    else
      var n := LineLength(s[1..]);
      assert s[..n + 1] == [s[0]] + s[1..][..n];
      n + 1
  }

  /**
   * `line.match(/^(\w+):\s*(.*)/)`: the word before the colon, lower-cased, and what follows
   * the white space after the colon up to the first line terminator. Since `\w` never matches
   * a colon, only the whole leading word run can stand before it.
   */
  function MatchRole(line: string): (r: Option<Draft>)
    ensures r.Some? ==> IsRoleName(r.value.role) && |r.value.role| < |line| && IsWordChar(line[0])
    ensures r.Some? ==> line[|r.value.role|] == ':' && ToLower(line[..|r.value.role|]) == r.value.role
    ensures r.Some? ==> NoTerminator(r.value.content)
    ensures r.Some? && |r.value.content| > 0 ==> !IsSpace(r.value.content[0])
  {
    var n := WordRun(line);
    if n == 0 || n == |line| || line[n] != ':' then None
    else
      var rest := TrimStart(line[n + 1..]);
      var k := LineLength(rest);
      LowerRole(line[..n]);
      Some(Draft(ToLower(line[..n]), rest[..k]))
  }

  lemma {:induction false} WordRunPrefix(w: string, x: string)
    requires AllWordChars(w)
    requires |x| > 0 ==> !IsWordChar(x[0])
    ensures WordRun(w + x) == |w|
    decreases |w|
  {
    if |w| > 0 {
      assert (w + x)[0] == w[0];
      assert (w + x)[1..] == w[1..] + x;
      WordRunPrefix(w[1..], x);
    } else {
      assert w + x == x;
    }
  }

  lemma {:induction false} LineLengthPrefix(c: string, t: string)
    requires NoTerminator(c)
    requires |t| > 0 ==> IsLineTerminator(t[0])
    ensures LineLength(c + t) == |c|
    decreases |c|
  {
    if |c| > 0 {
      assert (c + t)[0] == c[0];
      assert (c + t)[1..] == c[1..] + t;
      LineLengthPrefix(c[1..], t);
    } else {
      assert c + t == t;
    }
  }

  /**
   * Every line of the shape `word:` + white space + text + (nothing, or a line terminator and
   * anything) matches, with the lower-cased word as role and the text as content.
   */
  lemma MatchRoleExact(w: string, sp: string, c: string, t: string)
    requires |w| > 0 && AllWordChars(w)
    requires IsBlank(sp)
    requires NoTerminator(c)
    requires |c| > 0 ==> !IsSpace(c[0])
    requires |t| > 0 ==> |c| > 0 && IsLineTerminator(t[0])
    ensures MatchRole(w + (":" + (sp + (c + t)))) == Some(Draft(ToLower(w), c))
  {
    var line := w + (":" + (sp + (c + t)));
    WordRunPrefix(w, ":" + (sp + (c + t)));
    assert line[..|w|] == w;
    assert line[|w| + 1..] == sp + (c + t);
    TrimStartBlankPrefix(sp, c + t);
    LineLengthPrefix(c, t);
    assert (c + t)[..|c|] == c;
  }

  /** The number of lines of `lines[i..]` that open a message. */
  function Matches(lines: seq<string>, i: nat): nat
    requires i <= |lines|
    decreases |lines| - i
  {
    if i == |lines| then 0
    else (if MatchRole(lines[i]).Some? then 1 else 0) + Matches(lines, i + 1)
  }

  /** Every draft has a role name. */
  predicate AllRoleNames(ds: seq<Draft>) {
    forall k :: 0 <= k < |ds| ==> IsRoleName(ds[k].role)
  }

  lemma AllRoleNamesAppend(a: seq<Draft>, b: seq<Draft>)
    requires AllRoleNames(a) && AllRoleNames(b)
    ensures AllRoleNames(a + b)
  {
  }

  /**
   * The drafts of `lines[i..]` while the message `cur` is open: a matching line closes it and
   * opens the next one; any other line is appended to it after a line feed.
   */
  function Continue(cur: Draft, lines: seq<string>, i: nat): (r: seq<Draft>)
    requires i <= |lines|
    requires IsRoleName(cur.role)
    ensures |r| == 1 + Matches(lines, i)
    ensures r[0].role == cur.role
    ensures AllRoleNames(r)
    decreases |lines| - i
  {
    if i == |lines| then [cur]
    else
      match MatchRole(lines[i])
      case None => Continue(Draft(cur.role, cur.content + "\n" + lines[i]), lines, i + 1)
      case Some(d) =>
        var rest := Continue(d, lines, i + 1);
        AllRoleNamesAppend([cur], rest);
        [cur] + rest
  }

  /** The drafts of `lines[i..]` while no message is open: lines that do not match are dropped. */
  function Collect(lines: seq<string>, i: nat): (r: seq<Draft>)
    requires i <= |lines|
    ensures |r| == Matches(lines, i)
    ensures AllRoleNames(r)
    decreases |lines| - i
  {
    if i == |lines| then []
    else
      match MatchRole(lines[i])
      case None => Collect(lines, i + 1)
      case Some(d) => Continue(d, lines, i + 1)
  }

  const UserRole := "user"

  lemma UserIsRoleName()
    ensures IsRoleName(UserRole)
  {
    assert IsWordChar(UserRole[0]) && IsWordChar(UserRole[1]) && IsWordChar(UserRole[2]) && IsWordChar(UserRole[3]);
  }

  /** The messages of a text before trimming: the collected drafts, or the whole text as `user`. */
  function Drafts(content: string): (r: seq<Draft>)
    ensures AllRoleNames(r)
    ensures |r| == 0 <==> Matches(Split(content, "\n"), 0) == 0 && IsBlank(content)
  {
    var found := Collect(Split(content, "\n"), 0);
    if |found| == 0 && !IsBlank(content) then
      UserIsRoleName();
      [Draft(UserRole, content)]
    else found
  }

  /** The drafts with trimmed contents, as `processCodeBlocks` receives them. */
  function Trimmed(ds: seq<Draft>): (ms: seq<RawMessage>)
    ensures |ms| == |ds| && AllText(ms)
    ensures forall k :: 0 <= k < |ds| ==> ms[k].role == ds[k].role
  {
    seq(|ds|, k requires 0 <= k < |ds| => RawMessage(ds[k].role, JString(Trim(ds[k].content))))
  }

  /** `parseTxt(content)`. */
  function ParseTxt(content: string): seq<ChatMessage> {
    ProcessCodeBlocks(Trimmed(Drafts(content)))
  }

  // ---------------------------------------------------------------------------
  // properties of the line grammar

  /** Lines that do not match, while no message is open, are dropped. */
  lemma {:induction false} SkipUnmatched(lines: seq<string>, i: nat, j: nat)
    requires i <= j <= |lines|
    requires forall k :: i <= k < j ==> MatchRole(lines[k]).None?
    ensures Collect(lines, i) == Collect(lines, j)
    decreases j - i
  {
    if i < j {
      CollectSkip(lines, i);
      SkipUnmatched(lines, i + 1, j);
    }
  }

  lemma CollectSkip(lines: seq<string>, i: nat)
    requires i < |lines| && MatchRole(lines[i]).None?
    ensures Collect(lines, i) == Collect(lines, i + 1)
  {
  }

  /** The text that lines `lines[i..]` add to an open message: each after a line feed. */
  function Continuation(lines: seq<string>, i: nat): string
    requires i <= |lines|
    decreases |lines| - i
  {
    if i == |lines| then [] else "\n" + lines[i] + Continuation(lines, i + 1)
  }

  /** When no later line matches, the open message takes every remaining line. */
  lemma {:induction false} ContinueUnmatched(cur: Draft, lines: seq<string>, i: nat)
    requires i <= |lines| && IsRoleName(cur.role)
    requires forall k :: i <= k < |lines| ==> MatchRole(lines[k]).None?
    ensures Continue(cur, lines, i) == [Draft(cur.role, cur.content + Continuation(lines, i))]
    decreases |lines| - i
  {
    if i < |lines| {
      var next := Draft(cur.role, cur.content + "\n" + lines[i]);
      assert MatchRole(lines[i]).None?;
      assert Continue(cur, lines, i) == Continue(next, lines, i + 1);
      ContinueUnmatched(next, lines, i + 1);
      var tail := Continuation(lines, i + 1);
      assert Continuation(lines, i) == "\n" + lines[i] + tail;
      assert cur.content + "\n" + lines[i] + tail == cur.content + ("\n" + lines[i] + tail);
    } else {
      assert cur.content + Continuation(lines, i) == cur.content;
    }
  }

  /** When every line matches, every line is one message. */
  lemma {:induction false} ContinueAllMatch(lines: seq<string>, ds: seq<Draft>, i: nat)
    requires |ds| == |lines| && 1 <= i <= |lines|
    requires forall k :: 0 <= k < |lines| ==> MatchRole(lines[k]) == Some(ds[k])
    ensures IsRoleName(ds[i - 1].role)
    ensures Continue(ds[i - 1], lines, i) == ds[i - 1..]
    decreases |lines| - i
  {
    assert MatchRole(lines[i - 1]).Some?;
    if i < |lines| {
      ContinueAllMatch(lines, ds, i + 1);
      assert ds[i - 1..] == [ds[i - 1]] + ds[i..];
    } else {
      assert ds[i - 1..] == [ds[i - 1]];
    }
  }

  /** A blank line never opens a message. */
  lemma BlankLineUnmatched(line: string)
    requires IsBlank(line)
    ensures MatchRole(line).None?
  {
  }

  /** A blank text gives no messages at all. */
  lemma ParseTxtBlank(content: string)
    requires IsBlank(content)
    ensures ParseTxt(content) == []
  {
    var lines := Split(content, "\n");
    JoinSplit(content, "\n");
    JoinBlank(lines, "\n");
    forall k | 0 <= k < |lines| ensures MatchRole(lines[k]).None? {
      BlankLineUnmatched(lines[k]);
    }
    SkipUnmatched(lines, 0, |lines|);
  }

  /**
   * With no `role:` line anywhere, a text that is not blank becomes one `user` message holding
   * the whole trimmed text, cut at its code fences.
   */
  lemma ParseTxtFallback(content: string)
    requires forall k :: 0 <= k < |Split(content, "\n")| ==> MatchRole(Split(content, "\n")[k]).None?
    ensures ParseTxt(content)
      == if IsBlank(content) then [] else ProcessMessage(RawMessage(UserRole, JString(Trim(content))))
  {
    var lines := Split(content, "\n");
    SkipUnmatched(lines, 0, |lines|);
    if !IsBlank(content) {
      var m := RawMessage(UserRole, JString(Trim(content)));
      assert Trimmed(Drafts(content)) == [m];
      ProcessSingle(m);
    }
  }

  /** Every output message of `parseTxt` has non-empty, trimmed content. */
  lemma ParseTxtClean(content: string)
    ensures AllClean(ParseTxt(content))
  {
    ProcessedMessagesClean(Trimmed(Drafts(content)));
  }

  /** Every output message's role is `user` or the lower-cased word of a `role:` line. */
  predicate AllRoleNamed(r: seq<ChatMessage>) {
    forall k :: 0 <= k < |r| ==> IsRoleName(r[k].role)
  }

  lemma {:induction false} ProcessedRoles(ms: seq<RawMessage>)
    requires AllPrintable(ms)
    requires forall j :: 0 <= j < |ms| ==> IsRoleName(ms[j].role)
    ensures AllRoleNamed(ProcessCodeBlocks(ms))
  {
    if |ms| > 0 {
      var first := ProcessMessage(ms[0]);
      var rest := ms[1..];
      assert AllPrintable(rest) && forall j :: 0 <= j < |rest| ==> IsRoleName(rest[j].role) by {
        forall j | 0 <= j < |rest| ensures Printable(rest[j]) && IsRoleName(rest[j].role) {
          assert rest[j] == ms[j + 1];
        }
      }
      ProcessedRoles(rest);
      assert AllRole(first, ms[0].role);
      assert AllRoleNamed(first);
    }
  }

  lemma ParseTxtRoles(content: string)
    ensures AllRoleNamed(ParseTxt(content))
  {
    var ds := Drafts(content);
    var ms := Trimmed(ds);
    forall j | 0 <= j < |ms| ensures IsRoleName(ms[j].role) {
      assert ms[j].role == ds[j].role;
    }
    ProcessedRoles(ms);
  }

  // ---------------------------------------------------------------------------
  // rendering drafts as `role: content` lines

  /** A draft that renders as one line and parses back unchanged. */
  predicate Renderable(d: Draft) {
    IsRoleName(d.role) && NoTerminator(d.content) && (|d.content| > 0 ==> !IsSpace(d.content[0]))
  }

  function RenderLine(d: Draft): string {
    d.role + (":" + (" " + d.content))
  }

  /** The drafts as a text of `role: content` lines. */
  function Render(ds: seq<Draft>): string
    requires |ds| >= 1
  {
    Join(seq(|ds|, k requires 0 <= k < |ds| => RenderLine(ds[k])), "\n")
  }

  lemma RenderedLine(d: Draft)
    requires Renderable(d)
    ensures MatchRole(RenderLine(d)) == Some(d)
    ensures forall i :: 0 <= i < |RenderLine(d)| ==> RenderLine(d)[i] != '\n'
  {
    MatchRoleExact(d.role, " ", d.content, "");
    assert d.content + "" == d.content;
    LowerOfRoleName(d.role);
    var line := RenderLine(d);
    forall i | 0 <= i < |line| ensures line[i] != '\n' {
      if i < |d.role| {
        assert line[i] == d.role[i];
      } else if i > |d.role| + 1 {
        assert line[i] == d.content[i - |d.role| - 2];
        assert !IsLineTerminator(d.content[i - |d.role| - 2]);
      }
    }
  }

  /** Rendering drafts as lines and parsing the text gives back the same drafts. */
  lemma RenderRoundTrip(ds: seq<Draft>)
    requires |ds| >= 1
    requires forall k :: 0 <= k < |ds| ==> Renderable(ds[k])
    ensures Drafts(Render(ds)) == ds
  {
    var lines := seq(|ds|, k requires 0 <= k < |ds| => RenderLine(ds[k]));
    forall k | 0 <= k < |lines| ensures MatchRole(lines[k]) == Some(ds[k])
      && forall i :: 0 <= i < |lines[k]| ==> lines[k][i] != '\n'
    {
      RenderedLine(ds[k]);
    }
    SplitJoinChar(lines, '\n');
    assert Split(Render(ds), "\n") == lines;
    ContinueAllMatch(lines, ds, 1);
    assert ds[0..] == ds;
  }

  // ---------------------------------------------------------------------------
  // the source's loop

  /** The body of the line loop: the drafts closed so far and the open one, after one more line. */
  method Step(messages: seq<Draft>, current: Option<Draft>, line: string)
    returns (messages': seq<Draft>, current': Option<Draft>)
    requires current.Some? ==> IsRoleName(current.value.role)
    ensures current'.Some? ==> IsRoleName(current'.value.role)
    ensures current.None? && MatchRole(line).None? ==> messages' == messages && current' == None
    ensures current.None? && MatchRole(line).Some? ==> messages' == messages && current' == MatchRole(line)
    ensures current.Some? && MatchRole(line).Some? ==> messages' == messages + [current.value] && current' == MatchRole(line)
    ensures current.Some? && MatchRole(line).None? ==>
      messages' == messages && current' == Some(Draft(current.value.role, current.value.content + "\n" + line))
  {
    messages', current' := messages, current;
    var m := MatchRole(line);
    if m.Some? {
      if current.Some? {
        messages' := messages + [current.value];
      }
      current' := m;
    } else if current.Some? {
      current' := Some(Draft(current.value.role, current.value.content + "\n" + line));
    }
  }

  /** The line loop of `parseTxt`, with the last open message closed after it. */
  method CollectLoop(lines: seq<string>) returns (messages: seq<Draft>)
    ensures messages == Collect(lines, 0)
  {
    messages := [];
    var current: Option<Draft> := None;
    var i := 0;
    while i < |lines|
      invariant 0 <= i <= |lines|
      invariant current.Some? ==> IsRoleName(current.value.role)
      invariant current.None? ==> messages == [] && Collect(lines, 0) == Collect(lines, i)
      invariant current.Some? ==> Collect(lines, 0) == messages + Continue(current.value, lines, i)
    {
      messages, current := Step(messages, current, lines[i]);
      i := i + 1;
    }
    if current.Some? {
      messages := messages + [current.value];
    }
  }

  /** `parseTxt` as the source writes it. */
  method ParseTxtLoop(content: string) returns (out: seq<ChatMessage>)
    ensures out == ParseTxt(content)
  {
    var messages := CollectLoop(Split(content, "\n"));
    if |messages| == 0 && !IsBlank(content) {
      messages := [Draft(UserRole, content)];
    }
    TextPrintable(Trimmed(messages));
    var r := ProcessCodeBlocksLoop(Trimmed(messages));
    out := r.value;
  }
}
