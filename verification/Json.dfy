/** Parsed JSON documents, with Python's reading of them. */
module Json {
  datatype Json =
    | Null
    | Bool(b: bool)
    | Int(i: int)
    | Float
    | Str(s: string)
    | List(items: seq<Json>)
    | Object(fields: map<string, Json>)

  /** `isinstance(value, int)`: Python's booleans are integers. */
  predicate IsInt(j: Json) { j.Int? || j.Bool? }

  function AsInt(j: Json): int
    requires IsInt(j)
  {
    match j
    case Int(i) => i
    case Bool(b) => if b then 1 else 0
  }

  predicate NonEmptyString(j: Json) { j.Str? && j.s != "" }

  predicate IsNatural(j: Json) { IsInt(j) && AsInt(j) >= 0 }

  /** `mapping.get(key)`; an absent key reads as null. */
  function Get(fields: map<string, Json>, key: string): Json {
    if key in fields then fields[key] else Null
  }
}
