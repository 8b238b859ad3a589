/**
 * The value a YAML loader (`yaml.safe_load`) produces, kept abstract: the
 * loader itself is not modelled, its output is an input of the model.
 */
module Yaml {

  /** A loaded YAML document; mapping keys are strings. */
  datatype Value =
    | Null
    | Bool(b: bool)
    | Int(i: int)
    | Float(f: real)
    | Str(s: string)
    | List(items: seq<Value>)
    | Map(entries: map<string, Value>)

  /** Python's `not v` for the value's Python counterpart. */
  predicate Falsy(v: Value) {
    match v
    case Null => true
    case Bool(b) => !b
    case Int(i) => i == 0
    case Float(f) => f == 0.0
    case Str(s) => s == []
    case List(items) => items == []
    case Map(entries) => entries == map[]
  }

  /** `type(v).__name__` for the value's Python counterpart. */
  function TypeName(v: Value): string {
    match v
    case Null => "NoneType"
    case Bool(_) => "bool"
    case Int(_) => "int"
    case Float(_) => "float"
    case Str(_) => "str"
    case List(_) => "list"
    case Map(_) => "dict"
  }

}
