/** JavaScript values as they appear in a layer's data record, and the two
    object operations the merge relies on: property read and `_.assign`. */
module Values {

  datatype Option<+T> = None | Some(value: T)

  /** A JavaScript value stored in a layer's data. `Undefined` is what a read
      of a missing property produces. Numbers are kept opaque: nothing in the
      merge computes with them, it only asks whether a value is a number. */
  datatype Value =
    | Undefined
    | Null
    | Bool(b: bool)
    | Num(r: real)
    | Str(s: string)
    | List(items: seq<Value>)
    | Obj(fields: map<string, Value>)

  /** A plain JavaScript object: property name to value. */
  type Fields = map<string, Value>

  /** JavaScript truthiness (NaN, which is falsy, is not modelled). */
  predicate Truthy(v: Value) {
    match v
    case Undefined => false
    case Null => false
    case Bool(b) => b
    case Num(r) => r != 0.0
    case Str(s) => s != []
    case List(_) => true
    case Obj(_) => true
  }

  /** Property read `obj.key`. */
  function Get(obj: Fields, key: string): Value {
    if key in obj then obj[key] else Undefined
  }

  /** `_.assign(target, source)`: every own property of `source` is copied
      onto `target`, overwriting a property of the same name. */
  function Assign(target: Fields, source: Fields): Fields {
    target + source
  }

  /** `x || {}` for a lookup that may come back empty. */
  function OrEmpty(x: Option<Fields>): Fields {
    match x
    case Some(obj) => obj
    case None => map[]
  }
}
