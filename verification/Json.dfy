/** JSON values as `serde_json` represents them, and its accessors. */
module Json {
  import opened Prelude

  type Fields = map<string, Value>

  datatype Value =
    | Null
    | Bool(b: bool)
    | Int(i: int)
    | Float(x: real)
    | String(s: string)
    | Array(items: seq<Value>)
    | Object(fields: Fields)
  {
    function Get(key: string): Option<Value> {
      if Object? && key in fields then Some(fields[key]) else None
    }

    function First(): Option<Value> {
      if Array? && items != [] then Some(items[0]) else None
    }

    function AsString(): Option<string> {
      if String? then Some(s) else None
    }
  }
}
