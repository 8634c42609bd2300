/**
 * JSON-like values as configuration files and task settings hold them: plain
 * objects (their entries in `Object.entries` order), arrays and primitives.
 */
module Json {
  import opened Wrappers

  datatype Json =
    | JNull
    | JBool(b: bool)
    | JNumber(n: int)
    | JString(s: string)
    | JArray(elems: seq<Json>)
    | JObject(members: seq<Member>)

  datatype Member = Member(key: string, value: Json)

  /** One step of a property path: an object key or an array index. */
  datatype Step = Key(name: string) | Index(i: nat)

  /** A JavaScript object never has two own properties with the same name. */
  predicate DistinctKeys(ms: seq<Member>)
  {
    forall i, j :: 0 <= i < j < |ms| ==> ms[i].key != ms[j].key
  }

  /** Every object inside `v` respects `DistinctKeys`. */
  predicate Valid(v: Json)
  {
    match v
    case JArray(es) => forall i :: 0 <= i < |es| ==> Valid(es[i])
    case JObject(ms) => DistinctKeys(ms) && forall i :: 0 <= i < |ms| ==> Valid(ms[i].value)
    case _ => true
  }

  /** The index of the member called `key`, if there is one. */
  function FindKey(ms: seq<Member>, key: string): (r: Option<nat>)
    ensures r.Some? ==> r.value < |ms| && ms[r.value].key == key
    ensures r.Some? ==> forall j :: 0 <= j < r.value ==> ms[j].key != key
    ensures r.None? ==> forall j :: 0 <= j < |ms| ==> ms[j].key != key
  {
    if ms == [] then None
    else if ms[0].key == key then Some(0)
    else match FindKey(ms[1..], key)
      case Some(k) => Some(k + 1)
      case None => None
  }

  /** `obj[key]` on a value: an own property of an object, or an element of an array. */
  function Property(v: Json, step: Step): Option<Json>
  {
    match (v, step)
    case (JObject(ms), Key(k)) =>
      (match FindKey(ms, k) case Some(i) => Some(ms[i].value) case None => None)
    case (JArray(es), Index(i)) => if i < |es| then Some(es[i]) else None
    case _ => None
  }

  /** The value reached from `v` by following `path`, if every step exists. */
  function At(v: Json, path: seq<Step>): Option<Json>
    decreases |path|
  {
    if path == [] then Some(v)
    else match Property(v, path[0])
      case Some(w) => At(w, path[1..])
      case None => None
  }

  /** In an object with distinct keys, each member is reached by its own key. */
  lemma MemberByKey(ms: seq<Member>, i: nat)
    requires DistinctKeys(ms) && i < |ms|
    ensures Property(JObject(ms), Key(ms[i].key)) == Some(ms[i].value)
  {
    var r := FindKey(ms, ms[i].key);
    assert r.Some?;
  }

  /** Following a path that starts with a step that exists is following the rest from there. */
  lemma AtStep(v: Json, step: Step, w: Json, rest: seq<Step>)
    requires Property(v, step) == Some(w)
    ensures At(v, [step] + rest) == At(w, rest)
  {
    assert ([step] + rest)[1..] == rest;
  }
}
