/**
 * The values `JSON.parse` can return, and the two JavaScript views of a value
 * the JWT page relies on: `typeof` and truthiness. The parser itself is not
 * modelled; callers receive it as a function `string -> Option<JsonValue>`,
 * `None` standing for the `SyntaxError` it throws.
 */
module Json {

  /** A parsed JSON value. Numbers are integers (fractions are not modelled). */
  datatype JsonValue =
    | Null
    | Bool(b: bool)
    | Num(n: int)
    | Str(s: string)
    | Arr(items: seq<JsonValue>)
    | Obj(fields: map<string, JsonValue>)

  /** The results of JavaScript's `typeof` that these values can produce. */
  datatype JsType = Undefined | Object | Boolean | Number | String

  /** `typeof v` for a parsed value: `null`, arrays and objects are all `'object'`. */
  function TypeOf(v: JsonValue): (t: JsType)
    ensures t == Object <==> v.Null? || v.Arr? || v.Obj?
    ensures t == String <==> v.Str?
  {
    match v
    case Null => Object
    case Bool(_) => Boolean
    case Num(_) => Number
    case Str(_) => String
    case Arr(_) => Object
    case Obj(_) => Object
  }

  /** JavaScript truthiness: `null`, `false`, `0` and `""` are falsy, every array and object is truthy. */
  predicate Truthy(v: JsonValue) {
    match v
    case Null => false
    case Bool(b) => b
    case Num(n) => n != 0
    case Str(s) => s != ""
    case Arr(_) => true
    case Obj(_) => true
  }
}
