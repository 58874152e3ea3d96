/** The values that the sync engine reads from and writes to the document store:
    the dynamic Go values (`any`) found in a `map[string]any`, with Go's fixed-width
    integers as subset types. */
module Bson {

  type int32 = x: int | -0x8000_0000 <= x < 0x8000_0000
  type int64 = x: int | -0x8000_0000_0000_0000 <= x < 0x8000_0000_0000_0000
  type uint32 = x: int | 0 <= x < 0x1_0000_0000
  type uint64 = x: int | 0 <= x < 0x1_0000_0000_0000_0000

  datatype Value =
    | Null
    | Bool(b: bool)
    | Int32(i32: int32)
    | Int64(i64: int64)
    | Uint32(u32: uint32)
    | Uint64(u64: uint64)
    | Double(r: real)
    | Str(s: string)
    | Doc(fields: map<string, Value>)
    | List(items: seq<Value>)

  /** A document as Go sees it: `map[string]any`. */
  type Document = map<string, Value>

  /** `d[key]` in Go: a missing key reads as nil. */
  function Get(d: Document, key: string): Value
  {
    if key in d then d[key] else Null
  }

  /** The value at a dotted path (`block_header.raw_data.number`) as the store's
      sort sees it: a missing step, or a step into a non-document, gives null. */
  function PathValue(d: Document, path: seq<string>): Value
    decreases |path|
  {
    if |path| == 0 then Doc(d)
    else if |path| == 1 then Get(d, path[0])
    else match Get(d, path[0])
      case Doc(inner) => PathValue(inner, path[1..])
      case _ => Null
  }

  /** Go's conversion `int64(x)` of an integer of another width: two's complement wrap. */
  function WrapInt64(x: int): int64
  {
    var m := x % 0x1_0000_0000_0000_0000;
    if m < 0x8000_0000_0000_0000 then m else m - 0x1_0000_0000_0000_0000
  }

  /** The conversion keeps a value that fits and otherwise differs by a multiple of 2^64. */
  lemma WrapInt64Facts(x: int)
    ensures -0x8000_0000_0000_0000 <= x < 0x8000_0000_0000_0000 ==> WrapInt64(x) == x
    ensures (WrapInt64(x) - x) % 0x1_0000_0000_0000_0000 == 0
  {
  }

  /** Go's conversion `uint64(x)` of an int64: wrap into [0, 2^64). */
  function WrapUint64(x: int): uint64
  {
    x % 0x1_0000_0000_0000_0000
  }

  /** The conversion keeps a value that fits and otherwise differs by a multiple of 2^64. */
  lemma WrapUint64Facts(x: int)
    ensures 0 <= x < 0x1_0000_0000_0000_0000 ==> WrapUint64(x) == x
    ensures (WrapUint64(x) - x) % 0x1_0000_0000_0000_0000 == 0
  {
  }

  /** The store's comparison order between values of different types, simplified:
      null, then numbers, then strings, documents, arrays, booleans. */
  function TypeRank(v: Value): nat
  {
    match v
    case Null => 0
    case Int32(_) => 1
    case Int64(_) => 1
    case Uint32(_) => 1
    case Uint64(_) => 1
    case Double(_) => 1
    case Str(_) => 2
    case Doc(_) => 3
    case List(_) => 4
    case Bool(_) => 5
  }

  function NumericValue(v: Value): real
  {
    match v
    case Int32(i) => i as real
    case Int64(i) => i as real
    case Uint32(u) => u as real
    case Uint64(u) => u as real
    case Double(r) => r
    case _ => 0.0
  }

  /** `a` sorts at or below `b`: numbers compare by value across widths,
      values of the same non-numeric type compare equal. */
  predicate SortLe(a: Value, b: Value)
  {
    TypeRank(a) < TypeRank(b) || (TypeRank(a) == TypeRank(b) && NumericValue(a) <= NumericValue(b))
  }

  /** The sort order is a total preorder. */
  lemma SortLeOrder()
    ensures forall a, b, c :: SortLe(a, b) && SortLe(b, c) ==> SortLe(a, c)
    ensures forall a, b :: SortLe(a, b) || SortLe(b, a)
  {
  }
}
