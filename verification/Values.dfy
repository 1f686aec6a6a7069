/**
 * The dynamic value `var_c`, seen as the finite tree behind its handle.
 * Sets and dictionaries are kept as the sequence in which `std::set` and `std::map` enumerate them.
 */
module Values {
  import opened Base

  datatype Value =
    | Blank
    | Bool(b: bool)
    | Int(i: int64)
    | Float(r: real)
    | Str(s: bytes)
    | Array(items: seq<Value>)
    | Set(items: seq<Value>)
    | List(items: seq<Value>)
    | Dict(pairs: seq<Pair>)

  datatype Pair = Pair(key: Value, val: Value)

  /** The numbers of the enumeration of type tags. */
  function Tag(v: Value): nat {
    match v
    case Blank => 0
    case Bool(_) => 1
    case Int(_) => 2
    case Float(_) => 3
    case Str(_) => 4
    case Array(_) => 5
    case Set(_) => 6
    case List(_) => 7
    case Dict(_) => 8
  }
}
