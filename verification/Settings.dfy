/** Rule settings: JSON objects, as config.cue, bundle.json, vartrack.json and preset files hold them. */
module Settings {
  datatype Json =
    | Null
    | Bool(b: bool)
    | Num(n: int)
    | Str(s: string)
    | List(items: seq<Json>)
    | Obj(fields: map<string, Json>)

  type Rule = map<string, Json>

  /** Python's bool(value). */
  predicate Truthy(j: Json) {
    match j
    case Null => false
    case Bool(b) => b
    case Num(n) => n != 0
    case Str(s) => s != ""
    case List(items) => items != []
    case Obj(fields) => fields != map[]
  }
}
