/**
 * What the two logging services share: a buffer that drops its oldest entry once a push takes it
 * over the cap, a listener set kept in insertion order (as a JavaScript `Set` iterates), and
 * the difference between handing out a copy of the buffer and handing out the buffer itself.
 */
module LogBuffer {

  /** `buf.push(e)`, then `buf.shift()` when the length went over `cap`. */
  function Push<T>(buf: seq<T>, e: T, cap: nat): (r: seq<T>)
    requires cap >= 1
    ensures |buf| <= cap ==> |r| <= cap
    ensures |r| > 0 && r[|r| - 1] == e
    ensures |r| <= |buf| + 1 && r == (buf + [e])[|buf| + 1 - |r|..]
    ensures |buf| < cap ==> |r| == |buf| + 1
    ensures |buf| >= cap ==> |r| == |buf|
  {
    var b := buf + [e];
    if |b| > cap then b[1..] else b
  }

  /** The entries of `es` pushed in order. */
  function PushAll<T>(buf: seq<T>, es: seq<T>, cap: nat): seq<T>
    requires cap >= 1
    decreases |es|
  {
    if |es| == 0 then buf else PushAll(Push(buf, es[0], cap), es[1..], cap)
  }

  /** The last `n` elements of `s`, or all of them when there are fewer. */
  function Last<T>(s: seq<T>, n: nat): (r: seq<T>)
    ensures |r| == if |s| < n then |s| else n
  {
    if |s| < n then s else s[|s| - n..]
  }

  /** Two sequences that end alike in their last `n` places have the same last `n` elements. */
  lemma LastOfSuffix<T>(a: seq<T>, b: seq<T>, n: nat)
    requires |a| <= |b| && b[|b| - |a|..] == a
    requires |a| >= n || |a| == |b|
    ensures Last(a, n) == Last(b, n)
  {
    if |a| < |b| {
      assert a[|a| - n..] == b[|b| - n..];
    }
  }

  /** A suffix of `b` followed by `x` is a suffix of `b + x`. */
  lemma SuffixExtend<T>(p: seq<T>, b: seq<T>, x: seq<T>)
    requires |p| <= |b| && b[|b| - |p|..] == p
    ensures (b + x)[|b + x| - |p + x|..] == p + x
  {
    assert |b + x| - |p + x| == |b| - |p|;
  }

  /** What follows a push ends the same way as what follows the unbounded append. */
  lemma PushThenLast<T>(buf: seq<T>, e: T, rest: seq<T>, cap: nat)
    requires cap >= 1 && |buf| <= cap
    ensures Last(Push(buf, e, cap) + rest, cap) == Last(buf + [e] + rest, cap)
  {
    var p := Push(buf, e, cap);
    var b := buf + [e];
    SuffixExtend(p, b, rest);
    LastOfSuffix(p + rest, b + rest, cap);
  }

  /**
   * Pushing any entries one by one into a buffer within the cap leaves exactly the last `cap`
   * entries of everything pushed, in order: the oldest are the ones dropped.
   */
  lemma {:induction false} PushAllKeepsLast<T>(buf: seq<T>, es: seq<T>, cap: nat)
    requires cap >= 1 && |buf| <= cap
    ensures PushAll(buf, es, cap) == Last(buf + es, cap)
    decreases |es|
  {
    if |es| == 0 {
      assert buf + es == buf;
    } else {
      PushAllKeepsLast(Push(buf, es[0], cap), es[1..], cap);
      PushThenLast(buf, es[0], es[1..], cap);
      assert buf + es == buf + [es[0]] + es[1..];
    }
  }

  /** A listener function, told apart from the others by identity. */
  type ListenerId = nat

  predicate Unique(s: seq<ListenerId>) {
    forall i, j :: 0 <= i < j < |s| ==> s[i] != s[j]
  }

  /** `set.add(x)`: a new member goes last, a present one keeps its place. */
  function AddListener(s: seq<ListenerId>, x: ListenerId): (r: seq<ListenerId>)
    ensures Unique(s) ==> Unique(r)
    ensures forall y :: y in r <==> y in s || y == x
    ensures x in s ==> r == s
    ensures x !in s ==> r == s + [x]
  {
    if x in s then s else s + [x]
  }

  /** `set.delete(x)`: every other member stays, in order. */
  function RemoveListener(s: seq<ListenerId>, x: ListenerId): (r: seq<ListenerId>)
    ensures Unique(s) ==> Unique(r)
    ensures forall y :: y in r <==> y in s && y != x
    ensures x !in s ==> r == s
    ensures |r| <= |s|
    ensures Unique(s) && x in s ==> RemovedAt(s, x, r)
  {
    if |s| == 0 then []
    else
      var rest := RemoveListener(s[1..], x);
      var r := if s[0] == x then rest else [s[0]] + rest;
      assert Unique(s) ==> Unique(r) && (x in s ==> RemovedAt(s, x, r)) by {
        if Unique(s) {
          UniqueTail(s);
          if s[0] == x {
            assert s[..0] + s[1..] == rest;
          } else if x in s {
            assert x in s[1..];
            ConsRemoved(s, x, rest);
          }
        }
      }
      r
  }

  /** `r` is `s` with the one occurrence of `x` taken out, the rest in their order. */
  ghost predicate RemovedAt(s: seq<ListenerId>, x: ListenerId, r: seq<ListenerId>) {
    exists i :: 0 <= i < |s| && s[i] == x && r == s[..i] + s[i + 1..]
  }

  /** Taking `x` out of the tail and keeping the head is taking it out of the whole. */
  lemma ConsRemoved(s: seq<ListenerId>, x: ListenerId, rest: seq<ListenerId>)
    requires |s| > 0 && RemovedAt(s[1..], x, rest)
    ensures RemovedAt(s, x, [s[0]] + rest)
  {
    var i :| 0 <= i < |s| - 1 && s[1..][i] == x && rest == s[1..][..i] + s[1..][i + 1..];
    assert s[..i + 1] == [s[0]] + s[1..][..i];
    assert s[i + 2..] == s[1..][i + 1..];
    assert [s[0]] + rest == s[..i + 1] + s[i + 2..];
  }

  /** Members of a set without duplicates: the first one is not among the rest, which are unique too. */
  lemma UniqueTail(s: seq<ListenerId>)
    requires Unique(s) && |s| > 0
    ensures s[0] !in s[1..] && Unique(s[1..])
  {
    forall i, j | 0 <= i < j < |s| - 1 ensures s[1..][i] != s[1..][j] {
      assert s[1..][i] == s[i + 1] && s[1..][j] == s[j + 1];
    }
    forall j | 0 <= j < |s| - 1 ensures s[1..][j] != s[0] {
      assert s[1..][j] == s[j + 1];
    }
  }

  /** Adding a new member and deleting it again leaves the set as it was. */
  lemma AddThenRemove(s: seq<ListenerId>, x: ListenerId)
    requires x !in s
    ensures RemoveListener(AddListener(s, x), x) == s
  {
    RemoveAppended(s, x);
  }

  lemma {:induction false} RemoveAppended(s: seq<ListenerId>, x: ListenerId)
    requires x !in s
    ensures RemoveListener(s + [x], x) == s
  {
    if |s| > 0 {
      assert (s + [x])[1..] == s[1..] + [x];
      RemoveAppended(s[1..], x);
    }
  }

  /** What a caller holds after reading the logs: a copy, or the buffer itself. */
  datatype LogsView<T> = Snapshot(entries: seq<T>) | Live

  /** What a view shows when read while the buffer holds `current`. */
  function Read<T>(view: LogsView<T>, current: seq<T>): seq<T> {
    match view
    case Snapshot(entries) => entries
    case Live => current
  }
}
