/**
 * The structure document after JSON decoding. The program decodes `york.json`
 * into Go's dynamically typed `any`; the tree builder only distinguishes
 * objects, arrays and strings, so every other JSON value (numbers, booleans,
 * null) is the opaque case `Other`.
 */
module JsonValue {

  /** A decoded JSON value. An object is one iteration order of its members. */
  datatype Json =
    | Obj(members: seq<Member>)
    | Arr(items: seq<Json>)
    | Str(s: string)
    | Other

  /** One key/value pair of a JSON object. */
  datatype Member = Member(key: string, value: Json)

  /**
   * True when every value reachable through objects and arrays is an object,
   * an array or a string: the shapes the tree builder accepts.
   */
  predicate Admissible(j: Json)
    decreases j
  {
    match j
    case Obj(ms) => AdmissibleMembers(ms)
    case Arr(xs) => AdmissibleItems(xs)
    case Str(_) => true
    case Other => false
  }

  predicate AdmissibleMembers(ms: seq<Member>)
    decreases ms
  {
    ms == [] || (Admissible(ms[0].value) && AdmissibleMembers(ms[1..]))
  }

  predicate AdmissibleItems(xs: seq<Json>)
    decreases xs
  {
    xs == [] || (Admissible(xs[0]) && AdmissibleItems(xs[1..]))
  }

  /**
   * The base names of the children that a value adds to the node it is parsed
   * at, in order: one per object key, one per string, and, for an array, the
   * names its elements add, one element after another.
   */
  function LevelNames(j: Json): seq<string>
    decreases j
  {
    match j
    case Obj(ms) => Keys(ms)
    case Arr(xs) => ItemsLevelNames(xs)
    case Str(s) => [s]
    case Other => []
  }

  function Keys(ms: seq<Member>): (ks: seq<string>)
    ensures |ks| == |ms|
    ensures forall i :: 0 <= i < |ms| ==> ks[i] == ms[i].key
  {
    if ms == [] then [] else [ms[0].key] + Keys(ms[1..])
  }

  function ItemsLevelNames(xs: seq<Json>): seq<string>
    decreases xs
  {
    if xs == [] then [] else LevelNames(xs[0]) + ItemsLevelNames(xs[1..])
  }
}
