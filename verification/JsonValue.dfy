/** JSON values as the program sees them after parsing, with the partial
    accessors it reads them through. Objects are unordered maps. */
module JsonValue {

  import opened Wrappers

  datatype Json =
    | Null
    | Bool(b: bool)
    | Int(i: int)
    | Float(r: real)
    | Str(s: string)
    | Arr(items: seq<Json>)
    | Obj(fields: map<string, Json>)

  const U64_LIMIT: nat := 0x1_0000_0000_0000_0000
  const I64_LIMIT: int := 0x8000_0000_0000_0000

  /** The member of an object; nothing for a missing key or a non-object. */
  function Get(v: Json, key: string): Option<Json> {
    if v.Obj? && key in v.fields then Some(v.fields[key]) else None
  }

  /** `v` is an object with exactly this member under `key`. */
  predicate Has(v: Json, key: string, member: Json) {
    v.Obj? && key in v.fields && v.fields[key] == member
  }

  function AsStr(v: Option<Json>): Option<string> {
    match v
    case Some(Str(s)) => Some(s)
    case _ => None
  }

  function AsU64(v: Option<Json>): Option<nat> {
    match v
    case Some(Int(i)) => if 0 <= i < U64_LIMIT then Some(i) else None
    case _ => None
  }

  function AsI64(v: Option<Json>): Option<int> {
    match v
    case Some(Int(i)) => if -I64_LIMIT <= i < I64_LIMIT then Some(i) else None
    case _ => None
  }

  /** `message[outer][inner]` read as a string. */
  function StrAt(v: Json, outer: string, inner: string): Option<string> {
    match Get(v, outer)
    case Some(o) => AsStr(Get(o, inner))
    case None => None
  }
}
