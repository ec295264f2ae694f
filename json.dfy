/**
 * JSON values as `json.loads` returns them, and the laws the model relies on
 * for the `json.dumps` / `json.loads` pair, which are otherwise left abstract:
 * the encoder and decoder are passed around as function values.
 */
module Json {
  import opened Wrappers
  import opened Text

  /** A decoded JSON value (numbers are integers here). */
  datatype Json =
    | Null
    | Bool(b: bool)
    | Int(i: int)
    | Str(s: string)
    | Array(items: seq<Json>)
    | Object(fields: map<string, Json>)

  /** Python truthiness of a decoded value. */
  predicate Truthy(j: Json) {
    match j
    case Null => false
    case Bool(b) => b
    case Int(i) => i != 0
    case Str(s) => s != []
    case Array(items) => items != []
    case Object(fields) => fields != map[]
  }

  /**
   * `j.get(key, default)`; `None` when `j` is not a dict and so has no
   * `.get` (the AttributeError a caller may catch).
   */
  function Get(j: Json, key: string, default: Json): Option<Json> {
    if j.Object? then Some(if key in j.fields then j.fields[key] else default) else None
  }

  /**
   * `j[0]` followed by a `.get` on the element: `None` for an empty list
   * (IndexError), a dict (KeyError), a number (TypeError) or a string,
   * whose first character has no `.get`.
   */
  function First(j: Json): Option<Json> {
    if j.Array? && j.items != [] then Some(j.items[0]) else None
  }

  /**
   * What `json.dumps` (default arguments) and `json.loads` guarantee:
   * decoding undoes encoding; the encoding is ASCII with control characters
   * escaped, so it holds no line boundary; and a dict encodes as `{...}`.
   */
  ghost predicate Lawful(encode: Json -> string, decode: string -> Option<Json>) {
    && (forall j: Json :: decode(encode(j)) == Some(j))
    && (forall j: Json :: NoLineBreak(encode(j)))
    && (forall j: Json :: j.Object? ==> |encode(j)| >= 2 && encode(j)[0] == '{' && encode(j)[|encode(j)| - 1] == '}')
  }
}
