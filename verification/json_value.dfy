/**
 * A value as `JSON.parse` returns it, and the few JavaScript operations the parsers apply to
 * such values: truthiness, property reads, `String(v)` and object spread.
 *
 * `JSON.parse` itself is not modelled; numbers are integers here.
 */
module JsonValue {
  import opened Outcomes
  import opened Numerals

  datatype Json =
    | JNull
    | JBool(b: bool)
    | JNumber(n: int)
    | JString(s: string)
    | JArray(elems: seq<Json>)
    | JObject(fields: map<string, Json>)

  /** JavaScript truthiness: `null`, `false`, `0` and `""` are falsy, everything else truthy. */
  predicate Truthy(v: Json) {
    match v
    case JNull => false
    case JBool(b) => b
    case JNumber(n) => n != 0
    case JString(s) => s != ""
    case JArray(_) => true
    case JObject(_) => true
  }

  /** Truthiness of a property read, where a missing property reads as the falsy `undefined`. */
  predicate TruthyRead(v: Option<Json>) {
    v.Some? && Truthy(v.value)
  }

  /**
   * `v.key` on a non-null value, for a property name that is not an array index: only an
   * object can carry one (arrays, strings, numbers and booleans read `undefined`).
   */
  function Field(v: Json, key: string): (r: Option<Json>)
    ensures r.Some? <==> v.JObject? && key in v.fields
  {
    if v.JObject? && key in v.fields then Some(v.fields[key]) else None
  }

  /** `v[k]` on an array or an object: the element, or the property named by the numeral of `k`. */
  function Index(v: Json, k: nat): Option<Json> {
    match v
    case JArray(xs) => if k < |xs| then Some(xs[k]) else None
    case JObject(m) => var key := NatToString(k); if key in m then Some(m[key]) else None
    case _ => None
  }

  /**
   * `String(v)` throws a `TypeError`: an object with an own `toString` property (`JSON.parse`
   * never yields a function, so that property is not callable and neither is the inherited
   * `valueOf` result a primitive), or an array holding such a value at any depth, which
   * `join` stringifies.
   */
  predicate StringThrows(v: Json) {
    match v
    case JObject(fields) => "toString" in fields
    case JArray(xs) => exists i :: 0 <= i < |xs| && StringThrows(xs[i])
    case _ => false
  }

  /**
   * `String(v)`, `None` when it throws. Array elements are joined with `,`, a `null` element
   * giving the empty string.
   */
  function ToJsString(v: Json): (r: Option<string>)
    ensures r.None? <==> StringThrows(v)
    ensures v.JString? ==> r == Some(v.s)
    ensures v.JObject? && "toString" !in v.fields ==> r == Some("[object Object]")
    ensures v.JArray? && |v.elems| == 0 ==> r == Some("")
    decreases v, 1
  {
    match v
    case JNull => Some("null")
    case JBool(b) => Some(if b then "true" else "false")
    case JNumber(n) => Some(IntToString(n))
    case JString(s) => Some(s)
    case JObject(fields) => if "toString" in fields then None else Some("[object Object]")
    case JArray(xs) => if |xs| == 0 then Some("") else JoinFrom(xs, 0)
  }

  /** `xs.slice(i).join(',')`, `None` when one element's `String` throws. */
  function JoinFrom(xs: seq<Json>, i: nat): (r: Option<string>)
    requires i < |xs|
    ensures r.None? <==> exists j :: i <= j < |xs| && StringThrows(xs[j])
    decreases JArray(xs), 0, |xs| - i
  {
    var head := if xs[i].JNull? then Some("") else ToJsString(xs[i]);
    if i + 1 == |xs| then head
    else
      match (head, JoinFrom(xs, i + 1))
      case (Some(h), Some(t)) => Some(h + "," + t)
      case _ => None
  }

  /** The own enumerable properties `{...v}` copies, for a truthy value. */
  function Spread(v: Json): (m: map<string, Json>)
    ensures v.JObject? ==> m == v.fields
    ensures v.JArray? ==> forall i :: 0 <= i < |v.elems| ==> NatToString(i) in m && m[NatToString(i)] == v.elems[i]
    ensures v.JArray? ==> forall k :: k in m ==> exists i :: 0 <= i < |v.elems| && k == NatToString(i)
    ensures v.JString? ==> forall i :: 0 <= i < |v.s| ==> NatToString(i) in m && m[NatToString(i)] == JString([v.s[i]])
    ensures v.JString? ==> forall k :: k in m ==> exists i :: 0 <= i < |v.s| && k == NatToString(i)
    ensures !v.JObject? && !v.JArray? && !v.JString? ==> m == map[]
  {
    match v
    case JObject(fields) => fields
    case JArray(xs) => IndexMap(xs)
    case JString(s) => IndexMap(seq(|s|, i requires 0 <= i < |s| => JString([s[i]])))
    case _ => map[]
  }

  /** The properties of an array-like value: each index's numeral names its element. */
  function IndexMap<T>(xs: seq<T>): (m: map<string, T>)
    ensures forall i :: 0 <= i < |xs| ==> NatToString(i) in m && m[NatToString(i)] == xs[i]
    ensures forall k :: k in m ==> exists i :: 0 <= i < |xs| && k == NatToString(i)
  {
    map i | 0 <= i < |xs| :: NatToString(i) := xs[i]
  }
}
