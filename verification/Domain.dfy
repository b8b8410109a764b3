/** What the protocol adapters share: data types, values, errors and data points. */
module Domain {

  datatype Option<+T> = None | Some(value: T)

  datatype Result<+T> = Success(value: T) | Failure(error: Error)

  datatype Error =
    | ConnectionClosed
    | InvalidRegisterType
    | InvalidDataLength
    | InvalidDataType
    | InvalidWriteValue
    | InvalidArea
    | InvalidAddress
    | BadRequest                 // refused by the protocol library before anything is sent
    | DeviceError(code: int)     // reported by the device or the transport
    | Cancelled                  // the caller's context is done
    | TagNotWritable

  /** `OtherType` stands for strings and for anything the switches do not list. */
  datatype DataType =
    | Bool | Int16 | UInt16 | Int32 | UInt32 | Int64 | UInt64 | Float32 | Float64 | OtherType

  /** Floats are kept as their bit patterns. */
  datatype Value =
    | BoolValue(b: bool)
    | IntValue(n: int)
    | Float32Value(bits32: nat)
    | Float64Value(bits64: nat)
    | TextValue(text: string)

  /** Bytes a decoder reads for the type; OtherType is refused before anything is read. */
  function Width(dt: DataType): nat {
    match dt
    case Bool | Int16 | UInt16 => 2
    case Int32 | UInt32 | Float32 => 4
    case Int64 | UInt64 | Float64 => 8
    case OtherType => 0
  }

  predicate IsInteger(dt: DataType) {
    dt.Int16? || dt.UInt16? || dt.Int32? || dt.UInt32? || dt.Int64? || dt.UInt64?
  }

  predicate IsSigned(dt: DataType) {
    dt.Int16? || dt.Int32? || dt.Int64?
  }

  datatype DataPoint = DataPoint(tagId: string, outcome: Result<Value>)
}
