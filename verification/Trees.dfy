// The values that Python's json and the small YAML reader produce.
module Trees {

  // The values of a Python float. Finite values are taken exactly.
  datatype Float = NaN | PlusInf | MinusInf | Finite(value: real)

  datatype Tree<K(==)> =
    | Null
    | Bool(b: bool)
    | Int(i: int)
    | Real(f: Float)
    | Str(s: string)
    | List(items: seq<Tree<K>>)
    | Dict(entries: map<K, Tree<K>>)
}
