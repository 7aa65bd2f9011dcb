/** The JSON-like tree that serialization produces and deserialization consumes:
    strings, integers, booleans, null, ordered lists and string-keyed objects. */
module JsonValue {

  datatype Json =
    | JNull
    | JBool(b: bool)
    | JInt(i: int)
    | JStr(s: string)
    | JList(items: seq<Json>)
    | JObj(fields: map<string, Json>)

  /** A serialized object: the top level of every envelope. */
  type Object = map<string, Json>

  /** A list of integers as it appears in the tree (array shapes). */
  function IntList(xs: seq<int>): (r: Json)
    ensures r.JList? && |r.items| == |xs|
    ensures forall i :: 0 <= i < |xs| ==> r.items[i] == JInt(xs[i])
  {
    JList(seq(|xs|, i requires 0 <= i < |xs| => JInt(xs[i])))
  }
}
