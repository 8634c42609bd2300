/**
 * callisto-core util/misc: small helpers over plain objects — wrapping a
 * value in an array, dropping `null`/`undefined` entries, dropping entries
 * equal to a set of defaults, and merging defaults under item data.
 *
 * A plain object is modelled as a map from its keys to their values. Values
 * are primitives or arrays; nested plain objects are not modelled.
 */
module Misc {
  import opened Wrappers

  datatype Value =
    | Undefined
    | Null
    | Bool(b: bool)
    | Num(n: int)
    | Str(s: string)
    | Arr(elems: seq<Value>)

  type Obj = map<string, Value>

  /** `obj[key]`: the value of an own property, `undefined` when there is none. */
  function Lookup(obj: Obj, key: string): Value
  {
    if key in obj then obj[key] else Undefined
  }

  /**
   * `===`. Primitives compare by value; two arrays are distinct objects and
   * never strictly equal.
   */
  predicate StrictEquals(a: Value, b: Value)
  {
    !a.Arr? && !b.Arr? && a == b
  }

  /** `isNil`: `null` or `undefined`. */
  predicate IsNil(v: Value)
  {
    v.Undefined? || v.Null?
  }

  /** A value `merge` treats as a plain assignment: neither `undefined` nor an array. */
  predicate Flat(v: Value)
  {
    !v.Undefined? && !v.Arr?
  }

  // ---------------------------------------------------------------- wrapArray

  /** `wrapArray`: an array unchanged, anything else inside a one-element array. */
  function WrapArray(v: Value): (r: seq<Value>)
    ensures v.Arr? ==> r == v.elems
    ensures !v.Arr? ==> |r| == 1 && r[0] == v
  {
    if v.Arr? then v.elems else [v]
  }

  /** Wrapping what was already wrapped changes nothing. */
  lemma WrapArrayIdempotent(v: Value)
    ensures WrapArray(Arr(WrapArray(v))) == WrapArray(v)
  {
  }

  // ---------------------------------------------------------------- removeNil

  /** `removeNil`: the entries whose value is neither `null` nor `undefined`. */
  function RemoveNil(obj: Obj): (r: Obj)
    ensures forall k :: k in r <==> k in obj && !IsNil(obj[k])
    ensures forall k :: k in r ==> r[k] == obj[k]
  {
    map k | k in obj && !IsNil(obj[k]) :: obj[k]
  }

  /** Removing the nil entries a second time removes nothing. */
  lemma RemoveNilIdempotent(obj: Obj)
    ensures RemoveNil(RemoveNil(obj)) == RemoveNil(obj)
  {
  }

  /** An object without nil entries is returned as it is. */
  lemma RemoveNilOfClean(obj: Obj)
    requires forall k :: k in obj ==> !IsNil(obj[k])
    ensures RemoveNil(obj) == obj
  {
  }

  // ----------------------------------------------------------- removeDefaults

  /** `removeDefaults`: the entries of `details` that are not strictly equal to the default. */
  function RemoveDefaults(details: Obj, defaults: Obj): (r: Obj)
    ensures r.Keys <= details.Keys
    ensures forall k :: k in r <==> k in details && !StrictEquals(details[k], Lookup(defaults, k))
    ensures forall k :: k in r ==> r[k] == details[k]
  {
    map k | k in details && !StrictEquals(details[k], Lookup(defaults, k)) :: details[k]
  }

  /** Against no defaults, only the `undefined` entries are dropped (`undefined === undefined`). */
  lemma RemoveNoDefaults(details: Obj)
    ensures forall k :: k in RemoveDefaults(details, map[]) <==> k in details && !details[k].Undefined?
  {
  }

  // -------------------------------------------------------------- addDefaults

  /**
   * lodash `merge` of one source value `i` into a destination value `d`
   * (`Undefined` when the destination has no such key): an `undefined`
   * source leaves the destination alone, an array source is merged index by
   * index into the destination's array (or into an empty array), and any
   * other source value replaces the destination.
   */
  function MergeValue(d: Value, i: Value): Value
    decreases i, 1
  {
    match i
    case Undefined => d
    case Arr(es) => Arr(MergeElems(if d.Arr? then d.elems else [], es))
    case _ => i
  }

  /** `merge` of a source array into a destination array, index by index. */
  function MergeElems(d: seq<Value>, i: seq<Value>): seq<Value>
    decreases i, 0
  {
    if i == [] then d
    else if d == [] then [MergeValue(Undefined, i[0])] + MergeElems([], i[1..])
    else [MergeValue(d[0], i[0])] + MergeElems(d[1..], i[1..])
  }

  /** `merge(defaults, item)` on flat objects: every key of both, merged value by value. */
  function Merge(defaults: Obj, item: Obj): (r: Obj)
  {
    map k | k in defaults.Keys + item.Keys ::
      if k in item then MergeValue(Lookup(defaults, k), item[k]) else defaults[k]
  }

  /**
   * `addDefaults`: the item data merged over the task's defaults when there
   * are defaults (`None` is a missing or falsy `taskConfig.defaults`). Both
   * inputs are values, so neither is modified.
   */
  function AddDefaults(item: Obj, defaults: Option<Obj>): (r: Obj)
  {
    match defaults
    case None => item
    case Some(d) => Merge(d, item)
  }

  /** Without defaults the result equals the item data. */
  lemma AddNoDefaults(item: Obj)
    ensures AddDefaults(item, None) == item
  {
  }

  /**
   * With defaults the result has every key of both; the item's flat values
   * win, an `undefined` in the item keeps the default, and a key only the
   * defaults have keeps its default.
   */
  lemma AddDefaultsEntries(item: Obj, defaults: Obj)
    ensures AddDefaults(item, Some(defaults)).Keys == item.Keys + defaults.Keys
    ensures forall k :: k in item && Flat(item[k]) ==> AddDefaults(item, Some(defaults))[k] == item[k]
    ensures forall k :: k in item && item[k].Undefined? ==> AddDefaults(item, Some(defaults))[k] == Lookup(defaults, k)
    ensures forall k :: k in defaults && k !in item ==> AddDefaults(item, Some(defaults))[k] == defaults[k]
  {
  }

  /** Merging an array source keeps the longer length; flat source elements win. */
  lemma {:induction false} MergeElemsShape(d: seq<Value>, i: seq<Value>)
    ensures |MergeElems(d, i)| == if |d| < |i| then |i| else |d|
    ensures forall j :: 0 <= j < |i| && Flat(i[j]) ==> MergeElems(d, i)[j] == i[j]
    ensures forall j :: |i| <= j < |d| ==> MergeElems(d, i)[j] == d[j]
    decreases i
  {
    if i != [] {
      var rest := if d == [] then [] else d[1..];
      MergeElemsShape(rest, i[1..]);
      var r := MergeElems(d, i);
      assert r[1..] == MergeElems(rest, i[1..]);
      forall j | 0 < j < |i| && Flat(i[j]) ensures r[j] == i[j] {
        assert i[1..][j - 1] == i[j];
      }
      forall j | |i| <= j < |d| ensures r[j] == d[j] {
        assert rest[j - 1] == d[j];
      }
    }
  }

  /** Merging a value into itself gives it back. */
  lemma {:induction false} MergeValueSelf(v: Value)
    ensures MergeValue(v, v) == v
    decreases v, 1
  {
    if v.Arr? {
      MergeElemsSelf(v.elems);
    }
  }

  lemma {:induction false} MergeElemsSelf(e: seq<Value>)
    ensures MergeElems(e, e) == e
    decreases e, 0
  {
    if e != [] {
      MergeValueSelf(e[0]);
      MergeElemsSelf(e[1..]);
    }
  }

  /** Merging the same source a second time changes nothing. */
  lemma {:induction false} MergeValueTwice(d: Value, i: Value)
    ensures MergeValue(d, MergeValue(d, i)) == MergeValue(d, i)
    decreases i, 1
  {
    match i
    case Undefined => MergeValueSelf(d);
    case Arr(es) => MergeElemsTwice(if d.Arr? then d.elems else [], es);
    case _ =>
  }

  lemma {:induction false} MergeElemsTwice(d: seq<Value>, i: seq<Value>)
    ensures MergeElems(d, MergeElems(d, i)) == MergeElems(d, i)
    decreases i, 0
  {
    if i == [] {
      MergeElemsSelf(d);
    } else if d == [] {
      var r := MergeElems([], i);
      assert r == [MergeValue(Undefined, i[0])] + MergeElems([], i[1..]);
      MergeValueTwice(Undefined, i[0]);
      MergeElemsTwice([], i[1..]);
      assert r[0] == MergeValue(Undefined, i[0]) && r[1..] == MergeElems([], i[1..]);
    } else {
      var r := MergeElems(d, i);
      MergeValueTwice(d[0], i[0]);
      MergeElemsTwice(d[1..], i[1..]);
      assert r[0] == MergeValue(d[0], i[0]) && r[1..] == MergeElems(d[1..], i[1..]);
    }
  }

  /** Adding the same defaults a second time changes nothing. */
  lemma {:induction false} AddDefaultsIdempotent(item: Obj, defaults: Obj)
    ensures AddDefaults(AddDefaults(item, Some(defaults)), Some(defaults)) == AddDefaults(item, Some(defaults))
  {
    var once := AddDefaults(item, Some(defaults));
    var twice := AddDefaults(once, Some(defaults));
    forall k | k in once ensures twice[k] == once[k] {
      if k in item {
        MergeValueTwice(Lookup(defaults, k), item[k]);
      } else {
        MergeValueSelf(defaults[k]);
      }
    }
  }

  /**
   * Putting the defaults back into an object whose defaults were removed
   * restores it, when the object has flat values and every key of the
   * defaults (an object that once extended them).
   */
  lemma {:induction false} RemoveThenAddDefaults(details: Obj, defaults: Obj)
    requires forall k :: k in details ==> Flat(details[k])
    requires defaults.Keys <= details.Keys
    ensures AddDefaults(RemoveDefaults(details, defaults), Some(defaults)) == details
  {
    var kept := RemoveDefaults(details, defaults);
    var back := AddDefaults(kept, Some(defaults));
    assert back.Keys == details.Keys;
    forall k | k in details ensures back[k] == details[k] {
      if k !in kept {
        assert StrictEquals(details[k], Lookup(defaults, k));
      }
    }
  }
}
