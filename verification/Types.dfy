/** The entities shared by the storage engine and the query layer. */
module Types {
  import opened Bytes

  type i8 = x: int | -128 <= x < 128

  /** `x as u8` and back. */
  function I8ToByte(x: i8): byte { if x < 0 then x + 256 else x }

  function ByteToI8(b: byte): i8 { if b < 128 then b else b - 256 }

  datatype DataValue =
    | Null
    | Bool(b: bool)
    | Int(i: int)
    | UInt(u: nat)
    | Float(mantissa: int, exponent: int) // a finite f64: mantissa * 2^exponent
    | String(s: string)
    | Binary(raw: bytes)
    | Array(items: seq<DataValue>)
    | Object(fields: map<string, DataValue>)
    | Vector(elems: seq<i8>)
  {
    function TypeTag(): byte
    {
      match this
      case Null => 0
      case Bool(_) => 1
      case Int(_) => 2
      case UInt(_) => 3
      case Float(_, _) => 4
      case String(_) => 5
      case Binary(_) => 6
      case Array(_) => 7
      case Object(_) => 9
      case Vector(_) => 8
    }
  }

  datatype LogPointer = LogPointer(segmentId: nat, fileOffset: nat, seqId: nat, timestamp: int)

  datatype Record = Record(
    seqId: nat,
    timestamp: int,
    typeTag: byte,
    flags: byte,
    stream: string,
    key: string,
    value: DataValue)
  {
    /** The primary-index key `stream:key`. */
    function Compound(): string
    {
      CompoundKey(stream, key)
    }

    predicate IsTombstone()
    {
      flags / 2 % 2 == 1
    }

    predicate IsActive()
    {
      !IsTombstone() && flags % 2 == 1
    }
  }

  function CompoundKey(stream: string, key: string): string
  {
    stream + ":" + key
  }

  const FLAG_ACTIVE: byte := 1
  const FLAG_TOMBSTONE: byte := 2
}
