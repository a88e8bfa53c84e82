/**
 * The JavaScript values the adapter inspects. An object is seen only
 * through what the adapter reads from it: its `tagName` (when that is a
 * string), whether `document.body.contains` it, and its `outerHTML`.
 */
module JsValues {
  import opened Wrappers

  /** What the adapter can observe of an object; plain objects have no `tagName`. */
  datatype ObjectRef = ObjectRef(tagName: Option<string>, attached: bool, outerHTML: string)

  /** Numbers are integral here; NaN, fractions and infinities are not modelled. */
  datatype JsValue =
    | Undefined
    | Null
    | Boolean(b: bool)
    | Number(n: int)
    | Str(s: string)
    | Object(obj: ObjectRef)

  /** JavaScript truthiness (`!!v`). */
  predicate Truthy(v: JsValue)
  {
    match v
    case Undefined => false
    case Null => false
    case Boolean(b) => b
    case Number(n) => n != 0
    case Str(s) => s != ""
    case Object(_) => true
  }

  /** Own property keys: string names and symbols. */
  datatype PropertyKey = Name(name: string) | Symbol(id: nat)

  /** One own property of an object. */
  datatype Property = Property(key: PropertyKey, value: JsValue, enumerable: bool)

  /** An object's own properties, in the order the engine enumerates them. */
  type JsObject = seq<Property>

  /** Property lookup `o[k]`: the first own property with key `k`. */
  function Get(o: JsObject, k: PropertyKey): Option<Property>
  {
    if o == [] then None
    else if o[0].key == k then Some(o[0])
    else Get(o[1..], k)
  }

  /** A real object never holds two own properties with the same key. */
  predicate WellFormed(o: JsObject)
  {
    o == [] || (Get(o[1..], o[0].key) == None && WellFormed(o[1..]))
  }

  /** A successful lookup returns a property with the key asked for. */
  lemma {:induction false} GetHasKey(o: JsObject, k: PropertyKey)
    ensures Get(o, k).Some? ==> Get(o, k).value.key == k && Get(o, k).value in o
  {
    if o != [] && o[0].key != k {
      GetHasKey(o[1..], k);
    }
  }

  /** Lookup in a concatenation looks in the left part first. */
  lemma {:induction false} GetConcat(a: JsObject, b: JsObject, k: PropertyKey)
    ensures Get(a + b, k) == if Get(a, k).Some? then Get(a, k) else Get(b, k)
  {
    if a != [] {
      assert (a + b)[1..] == a[1..] + b;
      GetConcat(a[1..], b, k);
    } else {
      assert a + b == b;
    }
  }
}
