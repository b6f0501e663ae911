/** The JavaScript values that request bodies and client-side task objects
    are made of, with the truthiness and strict-equality tests the source
    applies to them. Numbers are integers (no NaN, no fractions). */
module JsValues {

  datatype JsValue =
    | Undefined
    | Null
    | Bool(b: bool)
    | Num(n: int)
    | Str(s: string)
    | Arr(items: seq<JsValue>)
    | Obj(fields: map<string, JsValue>)

  /** A plain object: its own enumerable properties. */
  type JsObject = map<string, JsValue>

  /** `!v`: undefined, null, false, 0 and the empty string are falsy;
      every array and object is truthy. */
  predicate Falsy(v: JsValue)
  {
    v == Undefined || v == Null || v == Bool(false) || v == Num(0) || v == Str("")
  }

  /** `v === undefined || v === null`. */
  predicate Nullish(v: JsValue)
  {
    v == Undefined || v == Null
  }

  /** `o[k]`: a missing property reads as undefined. */
  function Get(o: JsObject, k: string): (v: JsValue)
    ensures k !in o ==> v == Undefined
  {
    if k in o then o[k] else Undefined
  }

  /** `a === b`. Primitives compare by value; arrays and objects compare by
      identity, which this value model does not track, so two of them are
      never taken to be the same. */
  predicate StrictEquals(a: JsValue, b: JsValue)
  {
    !a.Arr? && !a.Obj? && a == b
  }

  /** `{ ...a, ...b }`: the properties of `b` override those of `a`. */
  function Spread(a: JsObject, b: JsObject): (r: JsObject)
    ensures r.Keys == a.Keys + b.Keys
    ensures forall k :: k in b ==> r[k] == b[k]
    ensures forall k :: k in a && k !in b ==> r[k] == a[k]
  {
    a + b
  }
}
