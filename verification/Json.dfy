/** Parsed JSON. Key order carries no meaning, so an object is a map. */
module Json {
  import opened Wrappers
  import Text

  datatype Json =
    | Null
    | Bool(b: bool)
    | Integer(n: int)
    | Float(r: real)
    | String(s: string)
    | Array(items: seq<Json>)
    | Object(fields: map<string, Json>)
  {
    /** The member `key` of an object; nothing for any other value. */
    function Get(key: string): Option<Json> {
      if Object? && key in fields then Some(fields[key]) else None
    }
  }

  function AsI64(j: Json): Option<int> {
    if j.Integer? && -Text.I64_LIMIT <= j.n < Text.I64_LIMIT then Some(j.n) else None
  }
}
