/** Values shared by every part of the poll application: an optional value
    (the source's `null`) and the JSON values that request bodies carry. */
module Common {

  datatype Option<+T> = None | Some(value: T)

  /** A decoded JSON value. JSON numbers are modelled as integers. */
  datatype Json =
    | JNull
    | JBool(b: bool)
    | JNum(n: int)
    | JStr(s: string)
    | JArr(items: seq<Json>)
    | JObj(fields: map<string, Json>)

  /** The field `key` of an object body, or `None` when the body is not an
      object or the key is absent (JavaScript's `undefined`). */
  function Field(body: Json, key: string): (r: Option<Json>)
    ensures r.Some? <==> body.JObj? && key in body.fields
    ensures r.Some? ==> r.value == body.fields[key]
  {
    if body.JObj? && key in body.fields then Some(body.fields[key]) else None
  }

  /** The strings of a JSON array all of whose items are strings, in order. */
  function StringItems(items: seq<Json>): (r: Option<seq<string>>)
    ensures r.Some? <==> forall i :: 0 <= i < |items| ==> items[i].JStr?
    ensures r.Some? ==> |r.value| == |items|
    ensures r.Some? ==> forall i :: 0 <= i < |items| ==> r.value[i] == items[i].s
  {
    if items == [] then Some([])
    else match StringItems(items[1..])
      case None => None
      case Some(rest) => if items[0].JStr? then Some([items[0].s] + rest) else None
  }

  /** The JSON array holding the given strings, in order. */
  function StringArray(ss: seq<string>): (r: Json)
    ensures r.JArr? && StringItems(r.items) == Some(ss)
  {
    var items := seq(|ss|, i requires 0 <= i < |ss| => JStr(ss[i]));
    assert StringItems(items).value == ss;
    JArr(items)
  }
}
