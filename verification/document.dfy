/** The untyped configuration document (decoded YAML) that the merge writes into. */
module Document {

  /** A decoded YAML value. Only maps are looked into; every other kind is opaque. */
  datatype Value =
    | Null
    | Bool(b: bool)
    | Int(n: int)
    | Str(s: string)
    | List(items: seq<Value>)
    | Obj(fields: map<string, Value>)

  datatype Option<+T> = None | Some(value: T)

  /** The value reached from `v` by following the map keys of `path`; lists are not entered. */
  function At(v: Value, path: seq<string>): Option<Value>
    decreases |path|
  {
    if path == [] then Some(v)
    else match v
      case Obj(f) => if path[0] in f then At(f[path[0]], path[1..]) else None
      case _ => None
  }

  /** Writing at one of two overlapping paths may change what is found at the other. */
  predicate Overlaps(p: seq<string>, q: seq<string>) {
    p <= q || q <= p
  }

  /** What the merge accepts at a container position: nothing yet, or a map. */
  predicate MapOrAbsent(o: Option<Value>) {
    o.None? || o.value.Obj?
  }

  /** A list of strings as a document value. */
  function Strings(ms: seq<string>): seq<Value> {
    seq(|ms|, i requires 0 <= i < |ms| => Str(ms[i]))
  }
}
