// The JSON value tree the simplifier and the serializer work on.

module JsonValue {

  /** A parsed JSON value. An object is the sequence of its members in
      enumeration order; the members of an object parsed from JSON text
      have distinct keys (see WellFormed). Numbers are integers. */
  datatype Json =
    | JNull
    | JBool(b: bool)
    | JNum(n: int)
    | JStr(s: string)
    | JArr(elems: seq<Json>)
    | JObj(members: seq<(string, Json)>)

  /** Null, booleans, numbers and strings. */
  predicate IsPrimitive(v: Json) {
    v.JNull? || v.JBool? || v.JNum? || v.JStr?
  }

  /** The keys of an object's members, in order. */
  function Keys(ms: seq<(string, Json)>): (ks: seq<string>)
    ensures |ks| == |ms|
    ensures forall i :: 0 <= i < |ms| ==> ks[i] == ms[i].0
  {
    if |ms| == 0 then [] else [ms[0].0] + Keys(ms[1..])
  }

  /** No key occurs twice. */
  predicate DistinctKeys(ms: seq<(string, Json)>) {
    forall i, j :: 0 <= i < j < |ms| ==> ms[i].0 != ms[j].0
  }

  /** Every object anywhere in the tree has distinct keys, as every value
      produced by a JSON parser does. */
  predicate WellFormed(v: Json) {
    match v
    case JArr(es) => forall i :: 0 <= i < |es| ==> WellFormed(es[i])
    case JObj(ms) => DistinctKeys(ms) && forall m :: m in ms ==> WellFormed(m.1)
    case _ => true
  }
}
