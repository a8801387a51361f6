/** The BSON values and configuration values that permission records,
    request bodies and checker arguments are made of, and the fixed-width
    integer conversions Java applies to them. */
module Bson {
  import opened Wrappers

  type Int32 = x: int | -0x8000_0000 <= x < 0x8000_0000
  type Int64 = x: int | -0x8000_0000_0000_0000 <= x < 0x8000_0000_0000_0000

  /** Java's Integer.MAX_VALUE. */
  const IntMaxValue: Int32 := 0x7FFF_FFFF

  /** A BSON value. A double carries its value already rounded toward zero
      (NaN as 0): floating point is not modelled beyond that. A Decimal128 is
      kept only as a value that is not a number to isNumber. */
  datatype BsonValue =
    | BNull
    | BBool(b: bool)
    | BString(str: string)
    | BInt32(i32: Int32)
    | BInt64(i64: Int64)
    | BDouble(truncated: int)
    | BDecimal128
    | BObjectId(hex: string)
    | BArray(items: seq<BsonValue>)
    | BDocument(fields: Document)

  type Document = map<string, BsonValue>

  /** BsonDocument.get: Java null (None) when the key is absent. */
  function Get(doc: Document, key: string): (r: Option<BsonValue>)
    ensures r.Some? <==> key in doc
    ensures r.Some? ==> r.value == doc[key]
  {
    if key in doc then Some(doc[key]) else None
  }

  /** BsonValue.isNumber: an int32, an int64 or a double. A Decimal128 is
      not a number in this sense. */
  predicate IsNumber(v: BsonValue) {
    v.BInt32? || v.BInt64? || v.BDouble?
  }

  /** Java's narrowing of a long or a BigInteger to int: the low 32 bits,
      read as two's complement. */
  function WrapInt32(x: int): (r: Int32)
    ensures -0x8000_0000 <= x < 0x8000_0000 ==> r == x
    ensures (r - x) % 0x1_0000_0000 == 0
  {
    (x + 0x8000_0000) % 0x1_0000_0000 - 0x8000_0000
  }

  /** Java's narrowing of an integer to long: the low 64 bits. */
  function WrapInt64(x: int): (r: Int64)
    ensures -0x8000_0000_0000_0000 <= x < 0x8000_0000_0000_0000 ==> r == x
    ensures (r - x) % 0x1_0000_0000_0000_0000 == 0
  {
    (x + 0x8000_0000_0000_0000) % 0x1_0000_0000_0000_0000 - 0x8000_0000_0000_0000
  }

  /** Java's (int) cast of a double already rounded toward zero: it
      saturates at the ends of the int range. */
  function SaturateInt32(x: int): (r: Int32)
    ensures -0x8000_0000 <= x < 0x8000_0000 ==> r == x
    ensures x >= 0x8000_0000 ==> r == IntMaxValue
    ensures x < -0x8000_0000 ==> r == -0x8000_0000
  {
    if x >= 0x8000_0000 then IntMaxValue
    else if x < -0x8000_0000 then -0x8000_0000
    else x
  }

  /** BsonNumber.intValue for each numeric type: an int32 as it is, an int64
      narrowed to its low 32 bits, a double cast with saturation. */
  function IntValue(v: BsonValue): (r: Int32)
    requires IsNumber(v)
    ensures v.BInt32? ==> r == v.i32
    ensures v.BInt64? ==> (r - v.i64) % 0x1_0000_0000 == 0
    ensures v.BInt64? && -0x8000_0000 <= v.i64 < 0x8000_0000 ==> r == v.i64
    ensures v.BDouble? && -0x8000_0000 <= v.truncated < 0x8000_0000 ==> r == v.truncated
    ensures v.BDouble? && v.truncated >= 0x8000_0000 ==> r == IntMaxValue
    ensures v.BDouble? && v.truncated < -0x8000_0000 ==> r == -0x8000_0000
  {
    match v
    case BInt32(i) => i
    case BInt64(l) => WrapInt32(l)
    case BDouble(d) => SaturateInt32(d)
  }

  /** A value of the configuration map a permission is read from: what the
      YAML loader yields (an Integer for a number that fits in an int, a
      Long otherwise). */
  datatype ConfValue =
    | CNull
    | CBool(b: bool)
    | CString(str: string)
    | CInteger(int32: Int32)
    | CLong(int64: Int64)
    | CList(elems: seq<ConfValue>)
    | CMap(entries: map<string, ConfValue>)
}
