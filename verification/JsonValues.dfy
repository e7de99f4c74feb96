/** JSON values, and the type names of JSON Schema. */
module JsonValues {

  datatype Json =
    | Null
    | Bool(truth: bool)
    | Number(number: real)
    | Text(text: string)
    | Array(elements: seq<Json>)
    | Object(members: map<string, Json>)

  /** Whether a value has the type that a schema names; an integer is any number without a fraction. */
  predicate HasKind(v: Json, name: string) {
    match name
    case "null" => v.Null?
    case "boolean" => v.Bool?
    case "number" => v.Number?
    case "integer" => v.Number? && v.number == v.number.Floor as real
    case "string" => v.Text?
    case "array" => v.Array?
    case "object" => v.Object?
    case _ => false
  }
}
