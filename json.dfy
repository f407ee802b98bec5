/** A JSON value as serde_json's `Value` holds it once parsed. Numbers are
    kept to integers: the backend reads no fractional number. */
module Json {
  import opened Wrappers

  datatype Json =
    | JNull
    | JBool(b: bool)
    | JNumber(n: int)
    | JString(s: string)
    | JArray(items: seq<Json>)
    | JObject(fields: map<string, Json>)

  /** `Value::get(key)`: a member of an object; nothing for any other value. */
  function Get(v: Json, key: string): (r: Option<Json>)
    ensures r.Some? <==> v.JObject? && key in v.fields
  {
    if v.JObject? && key in v.fields then Some(v.fields[key]) else None
  }

  /** `Option<&Value>::and_then(Value::as_str)` */
  function GetStr(v: Json, key: string): (r: Option<string>)
    ensures r.Some? <==> v.JObject? && key in v.fields && v.fields[key].JString?
    ensures r.Some? ==> v.fields[key] == JString(r.value)
  {
    match Get(v, key)
    case Some(JString(s)) => Some(s)
    case _ => None
  }
}
