/**
 * `processCodeBlocks`: every chat message is cut at the triple-backtick fence into
 * alternating prose and code parts; code parts lose their language tag; empty parts vanish.
 *
 * The two generations of the parser carry the same function, character for character.
 */
module CodeBlocks {
  import opened JsText
  import opened JsonValue
  import opened Outcomes

  const Fence := "```"

  /** A message as the parsers hand it over: the role, and content that may not be a string. */
  datatype RawMessage = RawMessage(role: string, content: Json)

  /**
   * A message after fence splitting. A message copied from a non-string content has no
   * `isCodeBlock` property; every reader treats that absence like `false`, and so does the model.
   */
  datatype ChatMessage = ChatMessage(role: string, content: string, isCodeBlock: bool)

  /** Non-empty and without white space at either end: what `trim()` leaves of a non-blank text. */
  predicate Clean(s: string) {
    |s| > 0 && !IsSpace(s[0]) && !IsSpace(s[|s| - 1])
  }

  /** Every message of `r` has clean content. */
  predicate AllClean(r: seq<ChatMessage>) {
    forall k :: 0 <= k < |r| ==> Clean(r[k].content)
  }

  /** Every message of `r` has role `role`. */
  predicate AllRole(r: seq<ChatMessage>, role: string) {
    forall k :: 0 <= k < |r| ==> r[k].role == role
  }

  lemma AllCleanAppend(a: seq<ChatMessage>, b: seq<ChatMessage>)
    requires AllClean(a) && AllClean(b)
    ensures AllClean(a + b)
  {
  }

  lemma AllRoleAppend(a: seq<ChatMessage>, b: seq<ChatMessage>, role: string)
    requires AllRole(a, role) && AllRole(b, role)
    ensures AllRole(a + b, role)
  {
  }

  lemma CleanIsTrimmed(s: string)
    requires Clean(s)
    ensures Trim(s) == s
  {
    TrimOfTrimmed(s);
  }

  /** `part.split('\n')[0]`: the text up to the first line feed. */
  function FirstLine(part: string): (r: string)
    ensures |r| <= |part| && r == part[..|r|]
  {
    SplitHead(part, "\n");
    Split(part, "\n")[0]
  }

  /**
   * The code of a part that follows an opening fence: the first line, trimmed, is the
   * language tag, and as many characters as the tag has are cut from the start of the part
   * before trimming.
   */
  function CodeOf(part: string): (code: string)
    ensures code == [] || Clean(code)
  {
    var language := Trim(FirstLine(part));
    Trim(part[|language|..])
  }

  /** The message (if any) that the part at position `index` of a split content produces. */
  function PartMessages(role: string, part: string, index: nat): (r: seq<ChatMessage>)
    ensures |r| <= 1
    ensures AllRole(r, role) && AllClean(r)
    ensures |r| == 1 ==> (r[0].isCodeBlock <==> index % 2 == 1)
    ensures index % 2 == 0 ==> (r == [] <==> IsBlank(part))
  {
    if index % 2 == 0 then
      var t := Trim(part);
      if t == [] then [] else [ChatMessage(role, t, false)]
    else
      var code := CodeOf(part);
      if code == [] then [] else [ChatMessage(role, code, true)]
  }

  /** The messages of `parts[i..]`, each part at its own position, in order. */
  function PartsFrom(role: string, parts: seq<string>, i: nat): (r: seq<ChatMessage>)
    requires i <= |parts|
    ensures |r| <= |parts| - i
    ensures AllRole(r, role) && AllClean(r)
    decreases |parts| - i
  {
    if i == |parts| then []
    else
      var a := PartMessages(role, parts[i], i);
      var b := PartsFrom(role, parts, i + 1);
      AllRoleAppend(a, b, role);
      AllCleanAppend(a, b);
      a + b
  }

  /**
   * The message does not make `processCodeBlocks` throw: its content is text, or falsy and
   * skipped, or a value whose `String` conversion succeeds.
   */
  predicate Printable(m: RawMessage) {
    m.content.JString? || !Truthy(m.content) || !StringThrows(m.content)
  }

  predicate AllPrintable(ms: seq<RawMessage>) {
    forall j :: 0 <= j < |ms| ==> Printable(ms[j])
  }

  /** The output of one message that does not throw. */
  function ProcessMessage(m: RawMessage): (r: seq<ChatMessage>)
    requires Printable(m)
    ensures AllRole(r, m.role)
    ensures m.content.JString? ==> AllClean(r)
    ensures !m.content.JString? ==>
      r == if Truthy(m.content) then [ChatMessage(m.role, ToJsString(m.content).value, false)] else []
  {
    if m.content.JString? then PartsFrom(m.role, Split(m.content.s, Fence), 0)
    else if Truthy(m.content) then [ChatMessage(m.role, ToJsString(m.content).value, false)]
    else []
  }

  predicate AllText(ms: seq<RawMessage>) {
    forall j :: 0 <= j < |ms| ==> ms[j].content.JString?
  }

  /** Text never throws. */
  lemma TextPrintable(ms: seq<RawMessage>)
    requires AllText(ms)
    ensures AllPrintable(ms)
  {
  }

  /** `processCodeBlocks(messages)` over messages none of which throws. */
  function ProcessCodeBlocks(ms: seq<RawMessage>): seq<ChatMessage>
    requires AllPrintable(ms)
  {
    if |ms| == 0 then [] else ProcessMessage(ms[0]) + ProcessCodeBlocks(ms[1..])
  }

  /** The `TypeError` that `String` raises on an object it cannot convert; nothing catches it here. */
  const StringTypeError := "Cannot convert object to primitive value"

  /**
   * `processCodeBlocks(messages)` with its failure: it throws at the first message whose
   * content `String` cannot convert, and otherwise yields what `ProcessCodeBlocks` does.
   */
  function ProcessCodeBlocksChecked(ms: seq<RawMessage>): (r: Result<seq<ChatMessage>>)
    ensures r.Ok? <==> AllPrintable(ms)
    ensures r.Ok? ==> r.value == ProcessCodeBlocks(ms)
    ensures r.Err? ==> r.message == StringTypeError
  {
    if |ms| == 0 then Ok([])
    else if !Printable(ms[0]) then Err(StringTypeError)
    else
      match ProcessCodeBlocksChecked(ms[1..])
      case Ok(rest) => Ok(ProcessMessage(ms[0]) + rest)
      case Err(e) => Err(e)
  }

  /** When every input message holds text, every output content is non-empty and trimmed. */
  lemma {:induction false} ProcessedMessagesClean(ms: seq<RawMessage>)
    requires AllText(ms)
    ensures AllClean(ProcessCodeBlocks(ms))
  {
    if |ms| > 0 {
      var rest := ms[1..];
      assert AllText(rest) by {
        forall j | 0 <= j < |rest| ensures rest[j].content.JString? {
          assert rest[j] == ms[j + 1];
        }
      }
      ProcessedMessagesClean(rest);
      assert ms[0].content.JString?;
      AllCleanAppend(ProcessMessage(ms[0]), ProcessCodeBlocks(rest));
    }
  }

  /** Messages are processed independently, and their outputs appear in input order. */
  lemma {:induction false} ProcessAppend(a: seq<RawMessage>, b: seq<RawMessage>)
    requires AllPrintable(a) && AllPrintable(b)
    ensures ProcessCodeBlocks(a + b) == ProcessCodeBlocks(a) + ProcessCodeBlocks(b)
  {
    if |a| == 0 {
      assert a + b == b;
    } else {
      assert (a + b)[0] == a[0];
      assert (a + b)[1..] == a[1..] + b;
      ProcessAppend(a[1..], b);
    }
  }

  /** A single message produces exactly what `ProcessMessage` gives it. */
  lemma ProcessSingle(m: RawMessage)
    requires Printable(m)
    ensures ProcessCodeBlocks([m]) == ProcessMessage(m)
  {
    assert [m][..0] == [];
  }

  /** The prose message a text gives when it holds no fence. */
  function Prose(role: string, s: string): (r: seq<ChatMessage>)
    ensures r == [] <==> IsBlank(s)
    ensures forall k :: 0 <= k < |r| ==> !r[k].isCodeBlock && Clean(r[k].content)
  {
    if IsBlank(s) then [] else [ChatMessage(role, Trim(s), false)]
  }

  predicate NoBacktick(s: string) {
    forall i :: 0 <= i < |s| ==> s[i] != '`'
  }

  /** A text without backticks stays in one piece: one trimmed prose message, or none if blank. */
  lemma NoFence(role: string, s: string)
    requires NoBacktick(s)
    ensures ProcessMessage(RawMessage(role, JString(s))) == Prose(role, s)
  {
    SplitFree(s, Fence);
  }

  /** Three pieces without backticks, joined by two fences, split back into those pieces. */
  lemma SplitThree(before: string, part: string, after: string)
    requires NoBacktick(before) && NoBacktick(part) && NoBacktick(after)
    ensures Split(before + Fence + (part + Fence + after), Fence) == [before, part, after]
  {
    SplitAfterFree(before, Fence, part + Fence + after);
    SplitAfterFree(part, Fence, after);
    SplitFree(after, Fence);
  }

  lemma NoBacktickLine(lang: string, code: string)
    requires NoBacktick(lang) && NoBacktick(code)
    ensures NoBacktick(lang + "\n" + code)
  {
    var part := lang + "\n" + code;
    forall i | 0 <= i < |part| ensures part[i] != '`' {
      if i < |lang| { assert part[i] == lang[i]; }
      else if i > |lang| { assert part[i] == code[i - |lang| - 1]; }
    }
  }

  predicate NoNewline(s: string) {
    forall i :: 0 <= i < |s| ==> s[i] != '\n'
  }

  lemma FirstLineOf(line: string, rest: string)
    requires NoNewline(line)
    ensures FirstLine(line + "\n" + rest) == line
  {
    SplitAfterFree(line, "\n", rest);
  }

  /** A trimmed language tag on its own line is cut away exactly. */
  lemma CodeAfterTag(lang: string, code: string)
    requires NoNewline(lang)
    requires Trim(lang) == lang
    ensures CodeOf(lang + "\n" + code) == Trim(code)
  {
    FirstLineOf(lang, code);
    DropFront(lang, "\n", code);
    TrimSpaceCons('\n', code);
  }

  lemma SpacedTagLine(lang: string)
    requires NoNewline(lang)
    ensures NoNewline([' '] + lang)
  {
    var t := [' '] + lang;
    forall i | 0 <= i < |t| ensures t[i] != '\n' {
      if i > 0 { assert t[i] == lang[i - 1]; }
    }
  }

  lemma DropSpacedTag(lang: string, code: string)
    requires |lang| > 0
    ensures ([' '] + lang + "\n" + code)[|lang|..] == [lang[|lang| - 1]] + "\n" + code
  {
    var tagLine := [' '] + lang;
    DropFront(tagLine, "\n", code);
    assert tagLine[|lang|..] == [lang[|lang| - 1]];
  }

  /**
   * The cut after the language tag counts from the start of the part, not from where the tag
   * stands: with a space before the tag, the tag's last character stays with the code.
   */
  lemma SpacedLanguageTag(lang: string, code: string)
    requires |lang| > 0 && NoNewline(lang)
    requires Trim(lang) == lang
    ensures CodeOf([' '] + lang + "\n" + code) == Trim([lang[|lang| - 1]] + "\n" + code)
  {
    SpacedTagLine(lang);
    FirstLineOf([' '] + lang, code);
    TrimSpaceCons(' ', lang);
    DropSpacedTag(lang, code);
  }

  /** The messages of a content that splits into exactly three parts. */
  lemma PartsOfThree(role: string, before: string, part: string, after: string)
    ensures PartsFrom(role, [before, part, after], 0)
      == Prose(role, before) + PartMessages(role, part, 1) + Prose(role, after)
  {
    var parts := [before, part, after];
    var x, y, z := Prose(role, before), PartMessages(role, part, 1), Prose(role, after);
    assert PartsFrom(role, parts, 2) == z by {
      assert PartsFrom(role, parts, 3) == [];
      assert PartMessages(role, after, 2) == z;
    }
    assert PartsFrom(role, parts, 1) == y + z;
    assert PartsFrom(role, parts, 0) == x + (y + z) by {
      assert PartMessages(role, before, 0) == x;
    }
    AppendAssoc(x, y, z);
  }

  lemma TextParts(role: string, s: string, parts: seq<string>)
    requires Split(s, Fence) == parts
    ensures ProcessMessage(RawMessage(role, JString(s))) == PartsFrom(role, parts, 0)
  {
  }

  /** A code part whose first line is a trimmed language tag gives the trimmed code after that line. */
  lemma TaggedCodePart(role: string, lang: string, code: string)
    requires NoNewline(lang)
    requires Trim(lang) == lang
    ensures PartMessages(role, lang + "\n" + code, 1)
      == if IsBlank(code) then [] else [ChatMessage(role, Trim(code), true)]
  {
    CodeAfterTag(lang, code);
  }

  /**
   * A fenced block `before ```lang\ncode``` after`, with a trimmed language tag on its own line:
   * the prose before it, then the code without the tag, then the prose after it.
   */
  lemma FencedBlock(role: string, before: string, lang: string, code: string, after: string)
    requires NoBacktick(before) && NoBacktick(lang) && NoBacktick(code) && NoBacktick(after)
    requires NoNewline(lang)
    requires Trim(lang) == lang
    ensures ProcessMessage(RawMessage(role, JString(before + Fence + (lang + "\n" + code + Fence + after))))
      == Prose(role, before)
         + (if IsBlank(code) then [] else [ChatMessage(role, Trim(code), true)])
         + Prose(role, after)
  {
    var part := lang + "\n" + code;
    NoBacktickLine(lang, code);
    SplitThree(before, part, after);
    TextParts(role, before + Fence + (part + Fence + after), [before, part, after]);
    PartsOfThree(role, before, part, after);
    TaggedCodePart(role, lang, code);
  }

  /** An empty array is truthy, yet renders as the empty string: it yields a message with no content. */
  lemma EmptyArrayContent(role: string)
    ensures ProcessCodeBlocks([RawMessage(role, JArray([]))]) == [ChatMessage(role, "", false)]
  {
    ProcessSingle(RawMessage(role, JArray([])));
  }

  /**
   * One step of the source's inner loop: the part at `index`, with `inCodeBlock` telling
   * whether a fence has opened a block that is still unclosed.
   */
  method EmitPart(role: string, part: string, index: nat, inCodeBlock: bool) returns (emitted: seq<ChatMessage>)
    requires inCodeBlock <==> index > 0 && index % 2 == 0
    ensures emitted == PartMessages(role, part, index)
  {
    emitted := [];
    if index == 0 {
      var t := Trim(part);
      if t != [] {
        emitted := [ChatMessage(role, t, false)];
      }
    } else if inCodeBlock {
      var t := Trim(part);
      if t != [] {
        emitted := [ChatMessage(role, t, false)];
      }
    } else {
      var language := Trim(FirstLine(part));
      var code := Trim(part[|language|..]);
      if code != [] {
        emitted := [ChatMessage(role, code, true)];
      }
    }
  }

  lemma Toggle(index: nat, inCodeBlock: bool)
    requires inCodeBlock <==> index > 0 && index % 2 == 0
    ensures (if index > 0 then !inCodeBlock else inCodeBlock) <==> (index + 1) % 2 == 0
  {
  }

  /** Emitting the part at `i` moves it from the pending parts to the output. */
  lemma PartsStep(role: string, parts: seq<string>, i: nat, out: seq<ChatMessage>)
    requires i < |parts|
    ensures out + PartsFrom(role, parts, i)
      == (out + PartMessages(role, parts[i], i)) + PartsFrom(role, parts, i + 1)
  {
  }

  /** The source's inner loop over the parts of one text content, toggling `inCodeBlock`. */
  method SplitContentLoop(role: string, content: string) returns (out: seq<ChatMessage>)
    ensures out == ProcessMessage(RawMessage(role, JString(content)))
  {
    var parts := Split(content, Fence);
    var inCodeBlock := false;
    out := [];
    var index := 0;
    while index < |parts|
      invariant 0 <= index <= |parts|
      invariant inCodeBlock <==> index > 0 && index % 2 == 0
      invariant PartsFrom(role, parts, 0) == out + PartsFrom(role, parts, index)
    {
      var emitted := EmitPart(role, parts[index], index, inCodeBlock);
      PartsStep(role, parts, index, out);
      out := out + emitted;
      Toggle(index, inCodeBlock);
      if index > 0 {
        inCodeBlock := !inCodeBlock;
      }
      index := index + 1;
    }
  }

  /** The output of the messages from position `n` on: that of message `n`, then the rest. */
  lemma ProcessFrom(ms: seq<RawMessage>, n: nat)
    requires n < |ms| && AllPrintable(ms)
    ensures ProcessCodeBlocks(ms[n..]) == ProcessMessage(ms[n]) + ProcessCodeBlocks(ms[n + 1..])
  {
    assert ms[n..][1..] == ms[n + 1..];
  }

  /** A prefix of printable messages grows by one message's output. */
  lemma PrefixStep(ms: seq<RawMessage>, n: nat)
    requires n < |ms| && AllPrintable(ms[..n]) && Printable(ms[n])
    ensures AllPrintable(ms[..n + 1])
    ensures ProcessCodeBlocks(ms[..n + 1]) == ProcessCodeBlocks(ms[..n]) + ProcessMessage(ms[n])
  {
    assert ms[..n + 1] == ms[..n] + [ms[n]];
    ProcessAppend(ms[..n], [ms[n]]);
    ProcessSingle(ms[n]);
  }

  /** One message that throws makes the whole call throw. */
  lemma ThrowStops(ms: seq<RawMessage>, n: nat)
    requires n < |ms| && !Printable(ms[n])
    ensures ProcessCodeBlocksChecked(ms) == Err(StringTypeError)
  {
  }

  /** The body of the source's outer loop for one message, throwing where `String` does. */
  method ProcessOne(msg: RawMessage) returns (out: Result<seq<ChatMessage>>)
    ensures out.Ok? <==> Printable(msg)
    ensures out.Ok? ==> out.value == ProcessMessage(msg)
    ensures out.Err? ==> out.message == StringTypeError
  {
    if !msg.content.JString? {
      out := Ok([]);
      if Truthy(msg.content) {
        match ToJsString(msg.content)
        case None => out := Err(StringTypeError);
        case Some(text) => out := Ok([ChatMessage(msg.role, text, false)]);
      }
    } else {
      var parts := SplitContentLoop(msg.role, msg.content.s);
      out := Ok(parts);
    }
  }

  /**
   * The same computation as the source writes it: a loop over the messages, pushing as it goes
   * and leaving at the first throw.
   */
  method ProcessCodeBlocksLoop(messages: seq<RawMessage>) returns (r: Result<seq<ChatMessage>>)
    ensures r == ProcessCodeBlocksChecked(messages)
  {
    var processed := [];
    var n := 0;
    while n < |messages|
      invariant 0 <= n <= |messages|
      invariant AllPrintable(messages[..n])
      invariant processed == ProcessCodeBlocks(messages[..n])
    {
      var out := ProcessOne(messages[n]);
      if out.Err? {
        ThrowStops(messages, n);
        return Err(StringTypeError);
      }
      PrefixStep(messages, n);
      processed := processed + out.value;
      n := n + 1;
    }
    assert messages[..n] == messages;
    r := Ok(processed);
  }
}
