/**
 * JavaScript `Map` contents as the project file stores them: `new Map(entries)` when loading
 * and `Array.from(map.entries())` when saving.
 */
module JsMap {
  import opened Outcomes
  import opened JsonValue

  /** One entry of a Map; a `None` key or value stands for `undefined`. */
  datatype Entry = Entry(key: Option<Json>, value: Option<Json>)

  const NotIterable := "TypeError: object is not iterable"
  const NotEntryObject := "TypeError: iterator value is not an entry object"

  /**
   * SameValueZero on keys produced by `JSON.parse`: primitives compare by value, while every
   * parsed array or object is a fresh reference that equals no other key.
   */
  predicate SameKey(a: Option<Json>, b: Option<Json>) {
    a == b && !(a.Some? && (a.value.JArray? || a.value.JObject?))
  }

  predicate HasKey(m: seq<Entry>, k: Option<Json>) {
    exists i :: 0 <= i < |m| && SameKey(m[i].key, k)
  }

  /** The Map invariant: no two entries have the same key. */
  predicate DistinctKeys(m: seq<Entry>) {
    forall i, j :: 0 <= i < j < |m| ==> !SameKey(m[i].key, m[j].key)
  }

  /** `m.set(k, v)`: an existing key keeps its position and takes the new value; a new key goes last. */
  function Set(m: seq<Entry>, k: Option<Json>, v: Option<Json>): (r: seq<Entry>)
    ensures HasKey(m, k) ==> |r| == |m|
    ensures !HasKey(m, k) ==> r == m + [Entry(k, v)]
    ensures forall i :: 0 <= i < |m| ==> r[i].key == m[i].key
    ensures forall i :: 0 <= i < |m| && !SameKey(m[i].key, k) ==> r[i] == m[i]
    ensures DistinctKeys(m) ==> forall i :: 0 <= i < |m| && SameKey(m[i].key, k) ==> r[i].value == v
    ensures DistinctKeys(m) ==> DistinctKeys(r)
  {
    if |m| == 0 then [Entry(k, v)]
    else if SameKey(m[0].key, k) then [Entry(m[0].key, v)] + m[1..]
    else
      var rest := Set(m[1..], k, v);
      HasKeyTail(m, k);
      assert DistinctKeys(m) ==> DistinctKeys([m[0]] + rest) by {
        if DistinctKeys(m) {
          DistinctTail(m);
          forall i | 0 <= i < |rest| ensures !SameKey(m[0].key, rest[i].key) {
            if i < |m| - 1 { assert rest[i].key == m[i + 1].key; }
          }
          DistinctCons(m[0], rest);
        }
      }
      [m[0]] + rest
  }

  lemma HasKeyTail(m: seq<Entry>, k: Option<Json>)
    requires |m| > 0 && !SameKey(m[0].key, k)
    ensures HasKey(m, k) <==> HasKey(m[1..], k)
  {
    if HasKey(m, k) {
      var i :| 0 <= i < |m| && SameKey(m[i].key, k);
      assert m[1..][i - 1] == m[i];
    }
    if HasKey(m[1..], k) {
      var i :| 0 <= i < |m| - 1 && SameKey(m[1..][i].key, k);
      assert m[i + 1] == m[1..][i];
    }
  }

  lemma DistinctTail(m: seq<Entry>)
    requires |m| > 0
    ensures DistinctKeys(m) ==> DistinctKeys(m[1..])
    ensures DistinctKeys(m) ==> forall i :: 0 < i < |m| ==> !SameKey(m[0].key, m[i].key)
  {
  }

  lemma DistinctCons(e: Entry, rest: seq<Entry>)
    requires DistinctKeys(rest)
    requires forall i :: 0 <= i < |rest| ==> !SameKey(e.key, rest[i].key)
    ensures DistinctKeys([e] + rest)
  {
    var t := [e] + rest;
    forall i, j | 0 <= i < j < |t| ensures !SameKey(t[i].key, t[j].key) {
      if i == 0 {
        assert t[j] == rest[j - 1];
      } else {
        assert t[i] == rest[i - 1] && t[j] == rest[j - 1];
      }
    }
  }

  /** The entries `new Map(es)` builds from the elements of an array, or the TypeError it throws. */
  function FromEntryList(es: seq<Json>): (r: Result<seq<Entry>>)
    ensures r.Ok? ==> DistinctKeys(r.value) && |r.value| <= |es|
  {
    if |es| == 0 then Ok([])
    else
      match FromEntryList(es[..|es| - 1])
      case Err(msg) => Err(msg)
      case Ok(m) =>
        var e := es[|es| - 1];
        if e.JArray? || e.JObject? then Ok(Set(m, Index(e, 0), Index(e, 1)))
        else Err(NotEntryObject)
  }

  /**
   * `new Map(x)`: `undefined` and `null` give an empty Map; an array is read entry by entry;
   * a string is iterated by characters, so only the empty string succeeds; anything else is
   * not iterable.
   */
  function FromIterable(x: Option<Json>): (r: Result<seq<Entry>>)
    ensures r.Ok? ==> DistinctKeys(r.value)
  {
    match x
    case None => Ok([])
    case Some(JNull) => Ok([])
    case Some(JArray(es)) => FromEntryList(es)
    case Some(JString(s)) => if s == "" then Ok([]) else Err(NotEntryObject)
    case Some(_) => Err(NotIterable)
  }

  /** A string-keyed Map as the application holds it, in insertion order. */
  predicate DistinctNames(m: seq<(string, Json)>) {
    forall i, j :: 0 <= i < j < |m| ==> m[i].0 != m[j].0
  }

  /** `Array.from(map.entries())`: one `[key, value]` pair per entry, in insertion order. */
  function ToEntries(m: seq<(string, Json)>): (r: Json)
    ensures r.JArray? && |r.elems| == |m|
    ensures forall i :: 0 <= i < |m| ==> r.elems[i] == JArray([JString(m[i].0), m[i].1])
  {
    JArray(seq(|m|, i requires 0 <= i < |m| => JArray([JString(m[i].0), m[i].1])))
  }

  /** The same Map seen as generic entries with string keys. */
  function Lift(m: seq<(string, Json)>): (r: seq<Entry>)
    ensures |r| == |m|
    ensures forall i :: 0 <= i < |m| ==> r[i] == Entry(Some(JString(m[i].0)), Some(m[i].1))
  {
    seq(|m|, i requires 0 <= i < |m| => Entry(Some(JString(m[i].0)), Some(m[i].1)))
  }

  /** The last name of a Map with distinct names is not among the keys before it. */
  lemma LastNameIsNew(m: seq<(string, Json)>)
    requires |m| > 0 && DistinctNames(m)
    ensures !HasKey(Lift(m[..|m| - 1]), Some(JString(m[|m| - 1].0)))
  {
    var front := m[..|m| - 1];
    var key := Some(JString(m[|m| - 1].0));
    forall i | 0 <= i < |front| ensures !SameKey(Lift(front)[i].key, key) {
      assert front[i].0 == m[i].0 != m[|m| - 1].0;
    }
  }

  lemma LiftSnoc(m: seq<(string, Json)>)
    requires |m| > 0
    ensures Lift(m) == Lift(m[..|m| - 1]) + [Entry(Some(JString(m[|m| - 1].0)), Some(m[|m| - 1].1))]
  {
  }

  lemma EntriesFront(m: seq<(string, Json)>)
    requires |m| > 0
    ensures ToEntries(m[..|m| - 1]).elems == ToEntries(m).elems[..|m| - 1]
  {
  }

  lemma {:induction false} FromEntryListOfPairs(m: seq<(string, Json)>)
    requires DistinctNames(m)
    ensures FromEntryList(ToEntries(m).elems) == Ok(Lift(m))
    decreases |m|
  {
    if |m| > 0 {
      var front := m[..|m| - 1];
      EntriesFront(m);
      FromEntryListOfPairs(front);
      LastNameIsNew(m);
      LiftSnoc(m);
    }
  }

  /** Saving a Map as its entry pairs and loading them with `new Map(...)` gives back the same Map. */
  lemma EntriesRoundTrip(m: seq<(string, Json)>)
    requires DistinctNames(m)
    ensures FromIterable(Some(ToEntries(m))) == Ok(Lift(m))
  {
    FromEntryListOfPairs(m);
  }

  /** When a key repeats in the saved pairs, the Map keeps one entry for it, holding the last value. */
  lemma RepeatedKeyKeepsLast(k: string, v1: Json, v2: Json)
    ensures FromIterable(Some(JArray([JArray([JString(k), v1]), JArray([JString(k), v2])])))
      == Ok([Entry(Some(JString(k)), Some(v2))])
  {
    var es := [JArray([JString(k), v1]), JArray([JString(k), v2])];
    assert es[..1] == [JArray([JString(k), v1])];
    assert es[..1][..0] == [];
    var m1 := [Entry(Some(JString(k)), Some(v1))];
    assert FromEntryList(es[..1]) == Ok(m1);
    assert es[..|es| - 1] == es[..1];
    assert Index(es[1], 0) == Some(JString(k)) && Index(es[1], 1) == Some(v2);
    assert Set(m1, Some(JString(k)), Some(v2)) == [Entry(Some(JString(k)), Some(v2))] by {
      assert SameKey(m1[0].key, Some(JString(k)));
      assert m1[1..] == [];
    }
  }
}
