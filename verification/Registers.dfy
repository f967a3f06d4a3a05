/** Register descriptors shared by templates and protocol adapters. */
module Registers {

  datatype DataType = Int16 | UInt16 | Int32 | UInt32 | Float32 | Float64 | OtherType(name: string)

  datatype ByteOrder = BigEndian | LittleEndian | BigEndianWordSwap | LittleEndianWordSwap | OtherOrder(name: string)

  /** 3 reads holding registers, 4 reads input registers; templates allow no other code. */
  datatype FunctionCode = Holding | Input

  datatype Register = Register(
    name: string,
    address: nat,
    functionCode: FunctionCode,
    dataType: DataType,
    byteOrder: ByteOrder
  )

  /** DATA_TYPE_REGISTER_COUNT, with the default 1 the adapter uses for other names. */
  function WordCount(dataType: DataType): (n: nat)
    ensures 1 <= n <= 4
  {
    match dataType
    case Int16 | UInt16 | OtherType(_) => 1
    case Int32 | UInt32 | Float32 => 2
    case Float64 => 4
  }
}
