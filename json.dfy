/** The JSON-shaped values the dashboard receives from the market-data provider
    (`ticker.info`, the news records), together with Python's truthiness and
    `dict.get` on them. Numbers are integers only: floating point is not modelled. */
module Json {

  datatype Json =
    | Null
    | Bool(b: bool)
    | Num(n: int)
    | Str(s: string)
    | Arr(items: seq<Json>)
    | Obj(fields: map<string, Json>)

  /** Python's truth value of a JSON-decoded object (`if x:`, `x or y`): exactly the
      six values None, False, 0, "", [] and {} are falsy. */
  predicate Truthy(j: Json)
    ensures !Truthy(j) <==>
              j == Null || j == Bool(false) || j == Num(0) || j == Str("") || j == Arr([]) || j == Obj(map[])
  {
    match j
    case Null => false
    case Bool(b) => b
    case Num(n) => n != 0
    case Str(s) => s != ""
    case Arr(items) => items != []
    case Obj(fields) => fields != map[]
  }

  /** `fields.get(key, default)`: the stored value whenever the key exists, even a null one. */
  function Get(fields: map<string, Json>, key: string, default: Json): (r: Json)
    ensures key in fields ==> r == fields[key]
    ensures key !in fields ==> r == default
  {
    if key in fields then fields[key] else default
  }

  /** The empty dictionary `{}` used as a default by chained `.get` calls. */
  const EMPTY_OBJECT: Json := Obj(map[])
}
