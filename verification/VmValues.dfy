/** The dynamic values of the VM, and the schemas that fix the layout of a struct. */
module VmValues {
  import opened Words64
  import opened Codecs
  import opened WireFormat
  import opened VmNames
  import opened IntX

  /** The fields a struct must hold, and how it is laid out. */
  datatype Schema = Schema(fields: seq<Named<FieldType>>, flags: U8)

  /** The type byte of a field; the structure matters for structs and arrays of structs. */
  datatype FieldType = FieldType(tag: U8, structure: Schema)

  /** Numbers of 1, 2, 4 or 8 bytes and byte blocks of 16, 32 or 64 are told apart by size. */
  datatype Value =
    | Nothing
    | Dynamic(inner: Value)
    | Bytes(bytes: seq<Byte>)
    | Record(fields: seq<Named<Value>>)
    | Whole(size: nat, number: nat)
    | Wide(wide: Word256)
    | Block(width: nat, block: seq<Byte>)
    | Text(text: seq<Byte>)
    | Values(items: seq<Value>)
    | ByteLists(lists: seq<seq<Byte>>)
    | Records(schema: Schema, rows: seq<seq<Named<Value>>>)
    | Wholes(size: nat, numbers: seq<nat>)
    | Wides(wides: seq<Word256>)
    | Blocks(width: nat, blocks: seq<seq<Byte>>)
    | Texts(texts: seq<seq<Byte>>)

  type Fields = seq<Named<Value>>

  // The type bytes; the lowest bit marks an array.
  const DYNAMIC: U8 := 0
  const ARRAY: U8 := 1
  const BYTES: U8 := 2
  const STRUCT: U8 := 4
  const INT256: U8 := 14
  const STRING: U8 := 22
  const ARRAY_BYTES: U8 := 3
  const ARRAY_STRUCT: U8 := 5
  const ARRAY_INT256: U8 := 15
  const ARRAY_STRING: U8 := 23

  /** The size behind a number's type byte, 0 for any other type. */
  function NumberSize(tag: int): nat {
    if tag == 6 then 1 else if tag == 8 then 2 else if tag == 10 then 4 else if tag == 12 then 8 else 0
  }

  function BlockSize(tag: int): nat {
    if tag == 16 then 16 else if tag == 18 then 32 else if tag == 20 then 64 else 0
  }

  function NumberTag(size: nat): U8 {
    if size == 1 then 6 else if size == 2 then 8 else if size == 4 then 10 else if size == 8 then 12 else 254
  }

  function BlockTag(width: nat): U8 {
    if width == 16 then 16 else if width == 32 then 18 else if width == 64 then 20 else 254
  }

  /** The type byte of a value. */
  function TagOf(v: Value): U8 {
    match v
    case Nothing => DYNAMIC
    case Dynamic(_) => DYNAMIC
    case Bytes(_) => BYTES
    case Record(_) => STRUCT
    case Whole(size, _) => NumberTag(size)
    case Wide(_) => INT256
    case Block(width, _) => BlockTag(width)
    case Text(_) => STRING
    case Values(_) => ARRAY
    case ByteLists(_) => ARRAY_BYTES
    case Records(_, _) => ARRAY_STRUCT
    case Wholes(size, _) => NumberTag(size) + 1
    case Wides(_) => ARRAY_INT256
    case Blocks(width, _) => BlockTag(width) + 1
    case Texts(_) => ARRAY_STRING
  }

  const EMPTY_SCHEMA := Schema([], 0)

  predicate AllowsExtras(s: Schema) {
    s.flags % 2 == 1
  }

  predicate ClaimsSorted(s: Schema) {
    (s.flags / 2) % 2 == 1
  }

  /** The zeroed value of a type, which stands in for a missing or mistyped field. */
  function ZeroOf(tag: U8): Value {
    if tag == BYTES then Bytes([])
    else if tag == STRUCT then Record([])
    else if NumberSize(tag) > 0 then Whole(NumberSize(tag), 0)
    else if tag == INT256 then Wide(seq(32, _ => 0))
    else if BlockSize(tag) > 0 then Block(BlockSize(tag), seq(BlockSize(tag), _ => 0))
    else if tag == STRING then Text([])
    else if tag == ARRAY then Values([])
    else if tag == ARRAY_BYTES then ByteLists([])
    else if tag == ARRAY_STRUCT then Records(EMPTY_SCHEMA, [])
    else if NumberSize(tag - 1) > 0 then Wholes(NumberSize(tag - 1), [])
    else if tag == ARRAY_INT256 then Wides([])
    else if BlockSize(tag - 1) > 0 then Blocks(BlockSize(tag - 1), [])
    else if tag == ARRAY_STRING then Texts([])
    else Nothing
  }

  /** The value written for a type: a zero stands for one of another type. */
  function Standing(v: Value, tag: Byte): Value {
    if TagOf(v) == tag then v else ZeroOf(tag)
  }
}
