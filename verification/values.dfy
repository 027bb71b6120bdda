/** The values the codec reads and writes: what a decoded token carries, what
    the collection mapper builds, and what the encoder accepts. */
module Values {
  import opened Chars

  const MIN_INT32: int := -0x8000_0000
  const MAX_INT32: int := 0x7FFF_FFFF

  predicate IsInt32(i: int) {
    MIN_INT32 <= i <= MAX_INT32
  }

  /** The range of `Convert.ToInt64`, through which the encoder writes every
      integral number. */
  type Int64 = i: int | -0x8000_0000_0000_0000 <= i <= 0x7FFF_FFFF_FFFF_FFFF

  /** A value as the codec sees it. `Null` is the .NET `null`; `Float` is a
      floating-point number kept as its decimal lexeme; `Table` is an
      `IDictionary` with string keys and its entries in enumeration order;
      `List` is an `IList`; `Record` is any other object, given by its public
      fields and then its public properties, each in declaration order. */
  datatype Value =
    | Null
    | Bool(b: bool)
    | Int(i: Int64)
    | Float(lexeme: Text)
    | Str(s: Text)
    | Table(entries: seq<(Text, Value)>)
    | List(items: seq<Value>)
    | Record(fields: seq<(Text, Value)>, properties: seq<(Text, Value)>)

  /** No key occurs twice, as in a `Hashtable`. */
  predicate DistinctKeys(es: seq<(Text, Value)>) {
    forall i, j | 0 <= i < j < |es| :: es[i].0 != es[j].0
  }

  predicate HasKey(es: seq<(Text, Value)>, k: Text) {
    exists i | 0 <= i < |es| :: es[i].0 == k
  }
}
