/**
 * The content of a document tree: the tagged value of the library with its
 * object pairs and array items, the type codes and status codes of the
 * public interface, and the read-only accessors with their failure sentinels.
 */
module Json {
  import opened Wrappers
  import opened Bytes
  import opened Members

  datatype Json =
    | Null
    | Boolean(b: bool)
    | Number(n: real)
    | String(s: Bytes)
    | Array(items: seq<Json>)
    | Object(members: seq<Pair<Json>>)

  /** The literal names `null`, `true` and `false`. */
  const NULL_TEXT: Bytes := [0x6E, 0x75, 0x6C, 0x6C]
  const TRUE_TEXT: Bytes := [0x74, 0x72, 0x75, 0x65]
  const FALSE_TEXT: Bytes := [0x66, 0x61, 0x6C, 0x73, 0x65]

  /** A number as the C library receives it from `strtod` or a caller: finite, or an infinity/NaN. */
  datatype Double = Finite(r: real) | NonFinite

  /** The codes of `JSON_Value_Type`. */
  const JSONError: int := -1
  const JSONNull: int := 1
  const JSONString: int := 2
  const JSONNumber: int := 3
  const JSONObject: int := 4
  const JSONArray: int := 5
  const JSONBoolean: int := 6

  /** The codes of `JSON_Status`. */
  function StatusCode(s: Status): int
  {
    if s == Success then 0 else -1
  }

  /** `json_value_get_type`: the type code of a value, JSONError for NULL. */
  function TypeOf(v: Option<Json>): (t: int)
    ensures t == JSONError <==> v.None?
    ensures t in {JSONError, JSONNull, JSONString, JSONNumber, JSONObject, JSONArray, JSONBoolean}
  {
    match v
    case None => JSONError
    case Some(Null) => JSONNull
    case Some(Boolean(_)) => JSONBoolean
    case Some(Number(_)) => JSONNumber
    case Some(String(_)) => JSONString
    case Some(Array(_)) => JSONArray
    case Some(Object(_)) => JSONObject
  }

  /** `json_value_get_object`: the pairs of an object value, NULL for any other value. */
  function GetObject(v: Option<Json>): (r: Option<seq<Pair<Json>>>)
    ensures r.Some? <==> TypeOf(v) == JSONObject
    ensures r.Some? ==> v == Some(Object(r.value))
  {
    if v.Some? && v.value.Object? then Some(v.value.members) else None
  }

  /** `json_value_get_array`: the items of an array value, NULL for any other value. */
  function GetArray(v: Option<Json>): (r: Option<seq<Json>>)
    ensures r.Some? <==> TypeOf(v) == JSONArray
    ensures r.Some? ==> v == Some(Array(r.value))
  {
    if v.Some? && v.value.Array? then Some(v.value.items) else None
  }

  /** `json_value_get_string`: the bytes of a string value, NULL for any other value. */
  function GetString(v: Option<Json>): (r: Option<Bytes>)
    ensures r.Some? <==> TypeOf(v) == JSONString
    ensures r.Some? ==> v == Some(String(r.value))
  {
    if v.Some? && v.value.String? then Some(v.value.s) else None
  }

  /** `json_value_get_number`: the number, 0 as the failure sentinel. */
  function GetNumber(v: Option<Json>): (r: real)
    ensures TypeOf(v) != JSONNumber ==> r == 0.0
    ensures TypeOf(v) == JSONNumber ==> v == Some(Number(r))
  {
    if v.Some? && v.value.Number? then v.value.n else 0.0
  }

  /** `json_value_get_boolean`: 1 or 0, -1 as the failure sentinel. */
  function GetBoolean(v: Option<Json>): (r: int)
    ensures r == -1 <==> TypeOf(v) != JSONBoolean
    ensures r != -1 ==> v == Some(Boolean(r == 1)) && (r == 0 || r == 1)
  {
    if v.Some? && v.value.Boolean? then (if v.value.b then 1 else 0) else -1
  }

  /** `json_object_get_value` on a possibly NULL object: the value of the first pair with that name. */
  function ObjectGetValue(obj: Option<seq<Pair<Json>>>, name: Bytes): (r: Option<Json>)
    ensures r.Some? <==> obj.Some? && HasName(obj.value, name)
  {
    match obj
    case None => None
    case Some(ps) => Lookup(ps, name)
  }

  /**
   * The shape every tree the library builds has: no two pairs of an object
   * share a name, and names and strings are C strings.
   */
  predicate WellFormed(v: Json)
  {
    match v
    case String(s) => NoNul(s)
    case Array(items) => forall i :: 0 <= i < |items| ==> WellFormed(items[i])
    case Object(ps) =>
      UniqueNames(ps) &&
      forall i :: 0 <= i < |ps| ==> NoNul(ps[i].name) && WellFormed(ps[i].value)
    case _ => true
  }

  /**
   * The largest number of containers enclosing any value inside `v`, counting
   * from the children of `v`: 0 for a scalar or an empty container.
   */
  function Height(v: Json): nat
  {
    match v
    case Array(items) => if items == [] then 0 else 1 + MaxHeight(items)
    case Object(ps) => if ps == [] then 0 else 1 + MaxHeightOfPairs(ps)
    case _ => 0
  }

  function MaxHeight(items: seq<Json>): nat
  {
    if items == [] then 0
    else
      var h := Height(items[0]);
      var rest := MaxHeight(items[1..]);
      if h < rest then rest else h
  }

  function MaxHeightOfPairs(ps: seq<Pair<Json>>): nat
  {
    if ps == [] then 0
    else
      var h := Height(ps[0].value);
      var rest := MaxHeightOfPairs(ps[1..]);
      if h < rest then rest else h
  }
}
