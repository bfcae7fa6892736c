/**
 * The JavaScript string operations the modelled code relies on: white space as `\s` and
 * `trim()` see it, `split` on a literal separator, `split(/\s+/).filter(Boolean)` word
 * splitting, and ASCII case mapping.
 *
 * Characters are Unicode scalar values; JavaScript strings are UTF-16 code units. The two
 * agree on every character of the Basic Multilingual Plane.
 */
module JsText {
  import opened Outcomes

  /** ECMAScript WhiteSpace and LineTerminator: what `\s` matches and `trim()` removes. */
  predicate IsSpace(c: char) {
    var n := c as int;
    n == 0x09 || n == 0x0A || n == 0x0B || n == 0x0C || n == 0x0D || n == 0x20 || n == 0xA0
    || n == 0x1680 || (0x2000 <= n <= 0x200A) || n == 0x2028 || n == 0x2029
    || n == 0x202F || n == 0x205F || n == 0x3000 || n == 0xFEFF
  }

  /** The line terminators that a regular-expression `.` does not match. */
  predicate IsLineTerminator(c: char) {
    var n := c as int;
    n == 0x0A || n == 0x0D || n == 0x2028 || n == 0x2029
  }

  /** The regular-expression class `\w` without the `u` flag. */
  predicate IsWordChar(c: char) {
    ('a' <= c <= 'z') || ('A' <= c <= 'Z') || ('0' <= c <= '9') || c == '_'
  }

  predicate IsBlank(s: string) {
    forall i :: 0 <= i < |s| ==> IsSpace(s[i])
  }

  predicate HasNoSpace(s: string) {
    forall i :: 0 <= i < |s| ==> !IsSpace(s[i])
  }

  lemma BlankConcat(a: string, b: string)
    requires IsBlank(a) && IsBlank(b)
    ensures IsBlank(a + b)
  {
  }

  /** `s.trimStart()`: what is left after the leading white space. */
  function TrimStart(s: string): (r: string)
    ensures |r| <= |s|
    ensures |r| > 0 ==> !IsSpace(r[0])
  {
    if |s| > 0 && IsSpace(s[0]) then TrimStart(s[1..]) else s
  }

  /** `TrimStart` drops a blank prefix and keeps the rest as it is. */
  lemma {:induction false} TrimStartShape(s: string)
    ensures TrimStart(s) == s[|s| - |TrimStart(s)|..]
    ensures IsBlank(s[..|s| - |TrimStart(s)|])
  {
    if |s| > 0 && IsSpace(s[0]) {
      var r := TrimStart(s[1..]);
      TrimStartShape(s[1..]);
      assert s[..|s| - |r|] == [s[0]] + s[1..][..|s| - 1 - |r|];
    }
  }

  /** A blank prefix followed by a non-space character (or nothing) is exactly what `trimStart()` drops. */
  lemma {:induction false} TrimStartBlankPrefix(sp: string, y: string)
    requires IsBlank(sp)
    requires |y| > 0 ==> !IsSpace(y[0])
    ensures TrimStart(sp + y) == y
    decreases |sp|
  {
    if |sp| > 0 {
      assert (sp + y)[0] == sp[0];
      assert (sp + y)[1..] == sp[1..] + y;
      TrimStartBlankPrefix(sp[1..], y);
    } else {
      assert sp + y == y;
    }
  }

  /** `s.trimEnd()`: what is left before the trailing white space. */
  function TrimEnd(s: string): (r: string)
    ensures |r| <= |s|
    ensures |r| > 0 ==> !IsSpace(r[|r| - 1])
  {
    if |s| > 0 && IsSpace(s[|s| - 1]) then TrimEnd(s[..|s| - 1]) else s
  }

  /** `TrimEnd` drops a blank suffix and keeps the rest as it is. */
  lemma {:induction false} TrimEndShape(s: string)
    ensures TrimEnd(s) == s[..|TrimEnd(s)|]
    ensures IsBlank(s[|TrimEnd(s)|..])
  {
    if |s| > 0 && IsSpace(s[|s| - 1]) {
      var r := TrimEnd(s[..|s| - 1]);
      TrimEndShape(s[..|s| - 1]);
      assert s[|r|..] == s[..|s| - 1][|r|..] + [s[|s| - 1]];
    }
  }

  /** `s.trim()`. */
  function Trim(s: string): (r: string)
    ensures |r| <= |s|
    ensures |r| > 0 ==> !IsSpace(r[0]) && !IsSpace(r[|r| - 1])
    ensures r == [] <==> IsBlank(s)
  {
    var t := TrimStart(s);
    var r := TrimEnd(t);
    TrimStartShape(s);
    TrimEndShape(t);
    assert r == [] ==> IsBlank(s) by {
      if r == [] {
        assert s == s[..|s| - |t|] + t;
        assert t == t[|r|..];
        BlankConcat(s[..|s| - |t|], t);
      }
    }
    assert r != [] ==> !IsBlank(s) by {
      if r != [] {
        assert r[0] == t[0] == s[|s| - |t|];
      }
    }
    r
  }

  /** A leading white-space character makes no difference to `trim()`. */
  lemma TrimSpaceCons(c: char, s: string)
    requires IsSpace(c)
    ensures Trim([c] + s) == Trim(s)
  {
    assert ([c] + s)[1..] == s;
  }

  lemma TrimOfTrimmed(s: string)
    requires |s| == 0 || (!IsSpace(s[0]) && !IsSpace(s[|s| - 1]))
    ensures Trim(s) == s
  {
  }

  lemma TrimOfNoSpace(s: string)
    requires HasNoSpace(s)
    ensures Trim(s) == s
  {
  }

  function Concat(parts: seq<string>): (r: string)
    ensures |parts| == 1 ==> r == parts[0]
  {
    if |parts| == 0 then [] else parts[0] + Concat(parts[1..])
  }

  lemma ConcatAppend(a: seq<string>, b: seq<string>)
    ensures Concat(a + b) == Concat(a) + Concat(b)
  {
    if |a| > 0 {
      assert (a + b)[0] == a[0];
      assert (a + b)[1..] == a[1..] + b;
      ConcatAppend(a[1..], b);
    } else {
      assert a + b == b;
    }
  }

  // ---------------------------------------------------------------------------
  // split on a literal separator

  /** `sep` occurs in `s` starting at index `j`. */
  predicate Occurs(s: string, sep: string, j: int) {
    0 <= j && j + |sep| <= |s| && s[j..j + |sep|] == sep
  }

  predicate ContainsSep(s: string, sep: string) {
    exists j | 0 <= j <= |s| :: Occurs(s, sep, j)
  }

  /** `s.indexOf(sep, i)`: the first occurrence of `sep` at or after `i`. */
  function IndexOfFrom(s: string, sep: string, i: nat): (r: Option<nat>)
    requires |sep| > 0 && i <= |s|
    ensures r.Some? ==> i <= r.value && Occurs(s, sep, r.value)
    decreases |s| - i
  {
    if i + |sep| > |s| then None
    else if s[i..i + |sep|] == sep then Some(i)
    else IndexOfFrom(s, sep, i + 1)
  }

  /** `IndexOfFrom` finds the first occurrence, and finds one whenever there is one. */
  lemma {:induction false} IndexOfFromIsFirst(s: string, sep: string, i: nat)
    requires |sep| > 0 && i <= |s|
    ensures var r := IndexOfFrom(s, sep, i);
      && (r.Some? ==> forall j :: i <= j < r.value ==> !Occurs(s, sep, j))
      && (r.None? ==> forall j :: i <= j ==> !Occurs(s, sep, j))
    decreases |s| - i
  {
    if i + |sep| <= |s| && s[i..i + |sep|] != sep {
      IndexOfFromIsFirst(s, sep, i + 1);
    }
  }

  /** `s.split(sep)` for a non-empty literal separator. */
  function Split(s: string, sep: string): (parts: seq<string>)
    requires |sep| > 0
    ensures |parts| >= 1
    decreases |s|
  {
    match IndexOfFrom(s, sep, 0)
    case None => [s]
    case Some(k) => [s[..k]] + Split(s[k + |sep|..], sep)
  }

  /** The text before the first occurrence of the separator does not contain it. */
  lemma FirstPieceFree(s: string, sep: string, k: nat)
    requires |sep| > 0 && IndexOfFrom(s, sep, 0) == Some(k)
    ensures !ContainsSep(s[..k], sep)
  {
    IndexOfFromIsFirst(s, sep, 0);
    var first := s[..k];
    forall j | 0 <= j <= |first| ensures !Occurs(first, sep, j) {
      if j + |sep| <= |first| {
        assert j < k && !Occurs(s, sep, j);
        assert first[j..j + |sep|] == s[j..j + |sep|];
      }
    }
  }

  /** No piece of a split contains the separator. */
  lemma {:induction false} SplitPiecesFree(s: string, sep: string)
    requires |sep| > 0
    ensures forall k :: 0 <= k < |Split(s, sep)| ==> !ContainsSep(Split(s, sep)[k], sep)
    decreases |s|
  {
    var parts := Split(s, sep);
    match IndexOfFrom(s, sep, 0)
    case None =>
      assert parts == [s];
      IndexOfFromIsFirst(s, sep, 0);
    case Some(k) =>
      var rest := s[k + |sep|..];
      SplitPiecesFree(rest, sep);
      FirstPieceFree(s, sep, k);
      var tail := Split(rest, sep);
      assert parts == [s[..k]] + tail;
      forall i | 0 <= i < |parts| ensures !ContainsSep(parts[i], sep) {
        if i > 0 {
          assert parts[i] == tail[i - 1];
        }
      }
  }

  /** `parts.join(sep)`. */
  function Join(parts: seq<string>, sep: string): string
    requires |parts| >= 1
  {
    if |parts| == 1 then parts[0] else parts[0] + sep + Join(parts[1..], sep)
  }

  /** Joining the pieces of a split with the same separator gives back the original text. */
  lemma {:induction false} JoinSplit(s: string, sep: string)
    requires |sep| > 0
    ensures Join(Split(s, sep), sep) == s
    decreases |s|
  {
    var r := IndexOfFrom(s, sep, 0);
    if r.Some? {
      var k := r.value;
      var rest := s[k + |sep|..];
      JoinSplit(rest, sep);
      var parts := Split(s, sep);
      assert parts[1..] == Split(rest, sep);
      SliceAround(s, k, k + |sep|);
    }
  }

  lemma AppendAssoc<T>(a: seq<T>, b: seq<T>, c: seq<T>)
    ensures (a + b) + c == a + (b + c)
  {
  }

  lemma DropFront(a: string, b: string, c: string)
    ensures (a + b + c)[|a|..] == b + c
  {
  }

  lemma TakeDrop(s: string, i: nat)
    requires i <= |s|
    ensures s == s[..i] + s[i..]
  {
  }

  lemma SliceAround(s: string, i: nat, j: nat)
    requires i <= j <= |s|
    ensures s == s[..i] + s[i..j] + s[j..]
  {
  }

  /** The first piece of a split is a prefix of the text. */
  lemma SplitHead(s: string, sep: string)
    requires |sep| > 0
    ensures |Split(s, sep)[0]| <= |s| && Split(s, sep)[0] == s[..|Split(s, sep)[0]|]
  {
  }

  /** A text is blank when joined from blank pieces, and only then. */
  lemma {:induction false} JoinBlank(parts: seq<string>, sep: string)
    requires |parts| >= 1 && IsBlank(Join(parts, sep))
    ensures forall k :: 0 <= k < |parts| ==> IsBlank(parts[k])
  {
    if |parts| > 1 {
      var rest := Join(parts[1..], sep);
      assert Join(parts, sep) == parts[0] + (sep + rest);
      assert IsBlank(rest) by {
        forall i | 0 <= i < |rest| ensures IsSpace(rest[i]) {
          assert rest[i] == Join(parts, sep)[|parts[0]| + |sep| + i];
        }
      }
      JoinBlank(parts[1..], sep);
      forall k | 0 <= k < |parts| ensures IsBlank(parts[k]) {
        if k > 0 {
          assert parts[k] == parts[1..][k - 1];
        } else {
          forall i | 0 <= i < |parts[0]| ensures IsSpace(parts[0][i]) {
            assert parts[0][i] == Join(parts, sep)[i];
          }
        }
      }
    }
  }

  /** When `a` has no occurrence of `sep`'s first character, the first split piece is `a`. */
  lemma SplitAfterFree(a: string, sep: string, b: string)
    requires |sep| > 0
    requires forall i :: 0 <= i < |a| ==> a[i] != sep[0]
    ensures Split(a + sep + b, sep) == [a] + Split(b, sep)
  {
    var s := a + sep + b;
    assert Occurs(s, sep, |a|) by {
      assert s[|a|..|a| + |sep|] == sep;
    }
    forall j | 0 <= j < |a| ensures !Occurs(s, sep, j) {
      assert s[j] == a[j];
    }
    var r := IndexOfFrom(s, sep, 0);
    IndexOfFromIsFirst(s, sep, 0);
    assert r == Some(|a|);
    assert s[..|a|] == a;
    assert s[|a| + |sep|..] == b;
  }

  /** A text without any occurrence of `sep`'s first character splits into itself alone. */
  lemma SplitFree(a: string, sep: string)
    requires |sep| > 0
    requires forall i :: 0 <= i < |a| ==> a[i] != sep[0]
    ensures Split(a, sep) == [a]
  {
    forall j | 0 <= j && j + |sep| <= |a| ensures !Occurs(a, sep, j) {
      assert a[j..j + |sep|][0] == a[j];
    }
    assert IndexOfFrom(a, sep, 0).None?;
  }

  /**
   * Splitting on a one-character separator undoes joining with it, as long as no piece
   * contains that character.
   */
  lemma {:induction false} SplitJoinChar(parts: seq<string>, c: char)
    requires |parts| >= 1
    requires forall k, i :: 0 <= k < |parts| && 0 <= i < |parts[k]| ==> parts[k][i] != c
    ensures Split(Join(parts, [c]), [c]) == parts
  {
    if |parts| == 1 {
      SplitFree(parts[0], [c]);
    } else {
      SplitJoinChar(parts[1..], c);
      SplitAfterFree(parts[0], [c], Join(parts[1..], [c]));
    }
  }

  // ---------------------------------------------------------------------------
  // words: `text.split(/\s+/).filter(Boolean)`

  /** The length of the leading run of non-white-space characters. */
  function TokenLength(s: string): (n: nat)
    ensures n <= |s|
    ensures HasNoSpace(s[..n])
    ensures n < |s| ==> IsSpace(s[n])
  {
    if |s| == 0 || IsSpace(s[0]) then 0
    else
      var n := TokenLength(s[1..]);
      assert s[..n + 1] == [s[0]] + s[1..][..n];
      n + 1
  }

  /** The maximal runs of non-white-space characters, in order. */
  function Words(s: string): (ws: seq<string>)
    ensures AllSolid(ws)
    decreases |s|
  {
    var t := TrimStart(s);
    if |t| == 0 then []
    else
      var n := TokenLength(t);
      var rest := Words(t[n..]);
      SolidCons(t[..n], rest);
      [t[..n]] + rest
  }

  /** Every piece is non-empty and free of white space. */
  predicate AllSolid(ws: seq<string>) {
    forall k :: 0 <= k < |ws| ==> |ws[k]| > 0 && HasNoSpace(ws[k])
  }

  lemma SolidCons(w: string, ws: seq<string>)
    requires |w| > 0 && HasNoSpace(w) && AllSolid(ws)
    ensures AllSolid([w] + ws)
  {
    forall k | 0 <= k < |ws| + 1 ensures ([w] + ws)[k] == if k == 0 then w else ws[k - 1] { }
  }

  /** A text has no words exactly when it is all white space. */
  lemma WordsEmptyIffBlank(s: string)
    ensures Words(s) == [] <==> IsBlank(s)
  {
    var t := TrimStart(s);
    TrimStartShape(s);
    if |t| == 0 {
      assert s == s[..|s| - |t|];
    } else {
      assert s[|s| - |t|] == t[0];
    }
  }

  function WordCount(s: string): nat {
    |Words(s)|
  }

  /** The text with every white-space character removed. */
  function RemoveSpaces(s: string): (r: string)
    ensures HasNoSpace(r)
  {
    if |s| == 0 then []
    else (if IsSpace(s[0]) then [] else [s[0]]) + RemoveSpaces(s[1..])
  }

  lemma {:induction false} RemoveSpacesAppend(a: string, b: string)
    ensures RemoveSpaces(a + b) == RemoveSpaces(a) + RemoveSpaces(b)
  {
    if |a| > 0 {
      assert (a + b)[0] == a[0];
      assert (a + b)[1..] == a[1..] + b;
      RemoveSpacesAppend(a[1..], b);
    } else {
      assert a + b == b;
    }
  }

  lemma {:induction false} RemoveSpacesBlank(s: string)
    requires IsBlank(s)
    ensures RemoveSpaces(s) == []
  {
    if |s| > 0 {
      RemoveSpacesBlank(s[1..]);
    }
  }

  lemma {:induction false} RemoveSpacesSolid(s: string)
    requires HasNoSpace(s)
    ensures RemoveSpaces(s) == s
  {
    if |s| > 0 {
      RemoveSpacesSolid(s[1..]);
    }
  }

  /** The words, glued back together, are exactly the non-white-space characters of the text. */
  lemma {:induction false} WordsCoverText(s: string)
    ensures Concat(Words(s)) == RemoveSpaces(s)
    decreases |s|
  {
    var t := TrimStart(s);
    DropLeadingSpaces(s);
    if |t| > 0 {
      var n := TokenLength(t);
      var head, rest := t[..n], t[n..];
      var ws := Words(rest);
      assert Words(s) == [head] + ws;
      ConcatCons(head, ws);
      WordsCoverText(rest);
      assert Concat(Words(s)) == head + RemoveSpaces(rest);
      RemoveSpacesSolid(head);
      TakeDrop(t, n);
      RemoveSpacesAppend(head, rest);
      assert RemoveSpaces(t) == head + RemoveSpaces(rest);
    }
  }

  lemma ConcatCons(w: string, ws: seq<string>)
    ensures Concat([w] + ws) == w + Concat(ws)
  {
    assert ([w] + ws)[1..] == ws;
  }

  lemma DropLeadingSpaces(s: string)
    ensures RemoveSpaces(s) == RemoveSpaces(TrimStart(s))
  {
    var t := TrimStart(s);
    TrimStartShape(s);
    var lead := s[..|s| - |t|];
    assert s == lead + t;
    RemoveSpacesAppend(lead, t);
    RemoveSpacesBlank(lead);
  }

  // ---------------------------------------------------------------------------
  // case mapping (ASCII letters only)

  function LowerChar(c: char): char {
    if 'A' <= c <= 'Z' then (c as int + 32) as char else c
  }

  function UpperChar(c: char): char {
    if 'a' <= c <= 'z' then (c as int - 32) as char else c
  }

  /** `s.toLowerCase()` restricted to ASCII letters. */
  function ToLower(s: string): (r: string)
    ensures |r| == |s|
    ensures forall i :: 0 <= i < |s| ==> r[i] == LowerChar(s[i])
  {
    seq(|s|, i requires 0 <= i < |s| => LowerChar(s[i]))
  }

  /** `s.toUpperCase()` restricted to ASCII letters. */
  function ToUpper(s: string): (r: string)
    ensures |r| == |s|
    ensures forall i :: 0 <= i < |s| ==> r[i] == UpperChar(s[i])
  {
    seq(|s|, i requires 0 <= i < |s| => UpperChar(s[i]))
  }

  predicate StartsWith(s: string, prefix: string) {
    |prefix| <= |s| && s[..|prefix|] == prefix
  }

  predicate EndsWith(s: string, suffix: string) {
    |suffix| <= |s| && s[|s| - |suffix|..] == suffix
  }
}
