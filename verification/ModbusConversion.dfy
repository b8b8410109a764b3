/** Conversion between Modbus register bytes and typed values. */
module ModbusConversion {
  import opened Bytes
  import opened Domain

  type u16 = x: int | 0 <= x < 0x1_0000

  /** `OtherRegister` stands for any string the switches do not list. */
  datatype RegisterType = Coil | DiscreteInput | HoldingRegister | InputRegister | OtherRegister(name: string)

  datatype Tag = Tag(
    id: string,
    address: u16,
    registerType: RegisterType,
    dataType: DataType,
    byteOrder: ByteOrder,
    count: u16,                  // RegisterCount
    bitPosition: Option<nat>)

  predicate IsBitType(rt: RegisterType) { rt == Coil || rt == DiscreteInput }

  // ----- decoding -----

  function Signed(u: nat, bytes: nat): int {
    if 2 * u >= Pow256(bytes) then u - Pow256(bytes) else u
  }

  /** The typed value held by bytes already in big-endian order. */
  function DecodeOrdered(s: seq<byte>, dt: DataType, bitPosition: Option<nat>): Result<Value>
    requires |s| >= Width(dt)
  {
    match dt
    case Bool =>
      Success(BoolValue(if bitPosition.Some? then Bit(FromBigEndian(s[..2]), bitPosition.value) else s[0] != 0 || s[1] != 0))
    case Float32 => Success(Float32Value(FromBigEndian(s[..4])))
    case Float64 => Success(Float64Value(FromBigEndian(s[..8])))
    case OtherType => Failure(InvalidDataType)
    case _ =>
      var w := Width(dt);
      var u := FromBigEndian(s[..w]);
      Success(IntValue(if IsSigned(dt) then Signed(u, w) else u))
  }

  /** The number of bytes the decoder puts in order before reading any, if it gets that far. */
  function ReorderedLength(len: nat, tag: Tag): (n: nat)
    ensures n <= len
  {
    if len == 0 || IsBitType(tag.registerType) || len < 2 * tag.count then 0 else 2 * tag.count
  }

  /** The decoder indexes past its slice, a run-time panic, unless this holds. */
  predicate NoPanic(len: nat, tag: Tag) {
    len == 0 || IsBitType(tag.registerType) || len < 2 * tag.count || Width(tag.dataType) <= 2 * tag.count
  }

  /** Tag validation asks for at least the registers the type needs, which rules the panic out. */
  predicate Decodable(tag: Tag) {
    Width(tag.dataType) <= 2 * tag.count
  }

  function ParseValue(data: seq<byte>, tag: Tag): Result<Value>
    requires NoPanic(|data|, tag)
  {
    if |data| == 0 then
      Failure(InvalidDataLength)
    else if IsBitType(tag.registerType) then
      Success(BoolValue(if tag.bitPosition.Some? then Bit(data[0], tag.bitPosition.value) else data[0] != 0))
    else if |data| < 2 * tag.count then
      Failure(InvalidDataLength)
    else
      DecodeOrdered(Reordered(data[..2 * tag.count], tag.byteOrder), tag.dataType, tag.bitPosition)
  }

  /** Decodes a tag from its window of a shared buffer, reordering that window in place. */
  method ParseInPlace(buf: array<byte>, lo: nat, len: nat, tag: Tag) returns (r: Result<Value>)
    requires lo + len <= buf.Length && NoPanic(len, tag)
    modifies buf
    ensures r == ParseValue(old(buf[lo..lo + len]), tag)
    ensures buf[..] == ReorderedAt(old(buf[..]), lo, ReorderedLength(len, tag), tag.byteOrder)
  {
    ghost var was := buf[..];
    var n := ReorderedLength(len, tag);
    ReorderedWindow(was, lo, n, tag.byteOrder);
    if len == 0 {
      return Failure(InvalidDataLength);
    }
    if IsBitType(tag.registerType) {
      return Success(BoolValue(if tag.bitPosition.Some? then Bit(buf[lo], tag.bitPosition.value) else buf[lo] != 0));
    }
    if len < 2 * tag.count {
      return Failure(InvalidDataLength);
    }
    ReorderBytes(buf, lo, n, tag.byteOrder);
    assert buf[lo..lo + n] == buf[..][lo..lo + n];
    assert was[lo..lo + len][..n] == was[lo..lo + n];
    r := DecodeOrdered(buf[lo..lo + n], tag.dataType, tag.bitPosition);
  }

  // ----- what is decoded, from the bytes themselves -----

  /** The bytes in the order they are read: highest first. */
  ghost predicate InOrder(o: seq<byte>, data: seq<byte>, order: ByteOrder) {
    match order
    case LittleEndian => IsReversed(o, data)
    case MidBig => IsPairSwapped(o, data)
    case MidLittle => IsHalfSwapped(o, data)
    case _ => o == data
  }

  /** A register tag's value, from its bytes put in order. */
  lemma ParsesRegisters(data: seq<byte>, tag: Tag) returns (o: seq<byte>)
    requires !IsBitType(tag.registerType) && 0 < 2 * tag.count <= |data| && Decodable(tag)
    ensures InOrder(o, data[..2 * tag.count], tag.byteOrder) && |o| == 2 * tag.count
    ensures tag.dataType == UInt16 ==> ParseValue(data, tag) == Success(IntValue(Sum16(o)))
    ensures tag.dataType == Int16 ==>
              ParseValue(data, tag) == Success(IntValue(if Sum16(o) < 0x8000 then Sum16(o) else Sum16(o) - 0x1_0000))
    ensures tag.dataType == UInt32 ==> ParseValue(data, tag) == Success(IntValue(Sum32(o)))
    ensures tag.dataType == Int32 ==>
              ParseValue(data, tag) == Success(IntValue(if Sum32(o) < 0x8000_0000 then Sum32(o) else Sum32(o) - 0x1_0000_0000))
    ensures tag.dataType == UInt64 ==> ParseValue(data, tag) == Success(IntValue(Sum64(o)))
    ensures tag.dataType == Int64 ==>
              ParseValue(data, tag) == Success(IntValue(
                if Sum64(o) < 0x8000_0000_0000_0000 then Sum64(o) else Sum64(o) - 0x1_0000_0000_0000_0000))
    ensures tag.dataType == Float32 ==> ParseValue(data, tag) == Success(Float32Value(Sum32(o)))
    ensures tag.dataType == Float64 ==> ParseValue(data, tag) == Success(Float64Value(Sum64(o)))
    ensures tag.dataType == Bool && tag.bitPosition == None ==>
              ParseValue(data, tag) == Success(BoolValue(o[0] != 0 || o[1] != 0))
    ensures tag.dataType == Bool && tag.bitPosition.Some? ==>
              var k := tag.bitPosition.value;
              ParseValue(data, tag) == Success(BoolValue(if k < 8 then Bit(o[1], k) else Bit(o[0], k - 8)))
    ensures tag.dataType == OtherType ==> ParseValue(data, tag) == Failure(InvalidDataType)
  {
    var own := data[..2 * tag.count];
    o := Reordered(own, tag.byteOrder);
    OrdersBytes(own, tag.byteOrder);
    hide Reordered, FromBigEndian, InOrder;
    assert InOrder(o, own, tag.byteOrder) by { OrderedIs(own, tag.byteOrder); }
    match tag.dataType
    case Bool => DecodesBool(o, tag.bitPosition);
    case OtherType =>
    case _ => DecodesNumber(o, tag.dataType);
  }

  lemma OrderedIs(own: seq<byte>, order: ByteOrder)
    ensures InOrder(Reordered(own, order), own, order)
  {
    OrdersBytes(own, order);
  }

  lemma DecodesBool(o: seq<byte>, bitPosition: Option<nat>)
    requires |o| >= 2
    ensures DecodeOrdered(o, Bool, bitPosition) ==
            Success(BoolValue(if bitPosition == None then o[0] != 0 || o[1] != 0
                              else if bitPosition.value < 8 then Bit(o[1], bitPosition.value)
                              else Bit(o[0], bitPosition.value - 8)))
  {
    hide Bit, FromBigEndian;
    BigEndian2(o[..2]);
    if bitPosition.Some? {
      BitOfWord(o[0], o[1], bitPosition.value);
    }
  }

  lemma DecodesNumber(o: seq<byte>, dt: DataType)
    requires |o| >= Width(dt) && dt != Bool && dt != OtherType
    ensures dt == UInt16 ==> DecodeOrdered(o, dt, None) == Success(IntValue(Sum16(o)))
    ensures dt == Int16 ==> DecodeOrdered(o, dt, None) ==
                            Success(IntValue(if Sum16(o) < 0x8000 then Sum16(o) else Sum16(o) - 0x1_0000))
    ensures dt == UInt32 ==> DecodeOrdered(o, dt, None) == Success(IntValue(Sum32(o)))
    ensures dt == Int32 ==> DecodeOrdered(o, dt, None) ==
                            Success(IntValue(if Sum32(o) < 0x8000_0000 then Sum32(o) else Sum32(o) - 0x1_0000_0000))
    ensures dt == UInt64 ==> DecodeOrdered(o, dt, None) == Success(IntValue(Sum64(o)))
    ensures dt == Int64 ==> DecodeOrdered(o, dt, None) ==
                            Success(IntValue(if Sum64(o) < 0x8000_0000_0000_0000 then Sum64(o) else Sum64(o) - 0x1_0000_0000_0000_0000))
    ensures dt == Float32 ==> DecodeOrdered(o, dt, None) == Success(Float32Value(Sum32(o)))
    ensures dt == Float64 ==> DecodeOrdered(o, dt, None) == Success(Float64Value(Sum64(o)))
    ensures forall k: Option<nat> :: DecodeOrdered(o, dt, k) == DecodeOrdered(o, dt, None)
  {
    hide FromBigEndian;
    Powers();
    hide Pow256;
    if Width(dt) == 2 {
      BigEndian2(o[..2]);
    } else if Width(dt) == 4 {
      BigEndian4(o[..4]);
    } else {
      BigEndian8(o[..8]);
    }
  }

  /** The number 0x12345678 in each byte order, and a negative one. */
  lemma KnownValues(tag: Tag)
    requires tag.registerType == HoldingRegister && tag.dataType == Int32 && tag.count == 2
    ensures tag.byteOrder == BigEndian ==> ParseValue([0x12, 0x34, 0x56, 0x78], tag) == Success(IntValue(0x1234_5678))
    ensures tag.byteOrder == LittleEndian ==> ParseValue([0x78, 0x56, 0x34, 0x12], tag) == Success(IntValue(0x1234_5678))
    ensures tag.byteOrder == MidBig ==> ParseValue([0x34, 0x12, 0x78, 0x56], tag) == Success(IntValue(0x1234_5678))
    ensures tag.byteOrder == MidLittle ==> ParseValue([0x56, 0x78, 0x12, 0x34], tag) == Success(IntValue(0x1234_5678))
    ensures ParseValue([0xFF, 0xFF, 0xFF, 0xFF], tag) == Success(IntValue(-1))
  {
    hide ParseValue;
    var data: seq<byte> := match tag.byteOrder
      case LittleEndian => [0x78, 0x56, 0x34, 0x12]
      case MidBig => [0x34, 0x12, 0x78, 0x56]
      case MidLittle => [0x56, 0x78, 0x12, 0x34]
      case _ => [0x12, 0x34, 0x56, 0x78];
    var o := ParsesRegisters(data, tag);
    assert data[..4] == data;
    InOrder4(o, data, tag.byteOrder);
    var ones: seq<byte> := [0xFF, 0xFF, 0xFF, 0xFF];
    var o' := ParsesRegisters(ones, tag);
    assert ones[..4] == ones;
    InOrder4(o', ones, tag.byteOrder);
  }

  /** The four bytes of two registers in the order they are read. */
  lemma InOrder4(o: seq<byte>, data: seq<byte>, order: ByteOrder)
    requires |data| == 4 && InOrder(o, data, order)
    ensures |o| == 4
    ensures o == match order
                 case LittleEndian => [data[3], data[2], data[1], data[0]]
                 case MidBig => [data[1], data[0], data[3], data[2]]
                 case MidLittle => [data[2], data[3], data[0], data[1]]
                 case _ => data
  {
    match order
    case LittleEndian =>
      assert o[0] == data[3] && o[1] == data[2] && o[2] == data[1] && o[3] == data[0];
    case MidBig =>
      assert o[2 * 0] == data[2 * 0 + 1] && o[2 * 0 + 1] == data[2 * 0] && o[2 * 1] == data[2 * 1 + 1] && o[2 * 1 + 1] == data[2 * 1];
    case MidLittle =>
      assert o[4 * 0] == data[4 * 0 + 2];
    case _ =>
  }

  /** What is refused, and what a bit tag gets. */
  lemma ParsesOther(data: seq<byte>, tag: Tag)
    requires NoPanic(|data|, tag)
    ensures data == [] ==> ParseValue(data, tag) == Failure(InvalidDataLength)
    ensures (tag.registerType == Coil || tag.registerType == DiscreteInput) && data != [] ==>
              ParseValue(data, tag) ==
              Success(BoolValue(match tag.bitPosition case None => data[0] != 0 case Some(k) => Bit(data[0], k)))
    ensures tag.registerType != Coil && tag.registerType != DiscreteInput && |data| < 2 * tag.count ==>
              ParseValue(data, tag) == Failure(InvalidDataLength)
  {
  }

  // ----- encoding -----

  /** Conversions of floating-point arguments, which are not modelled. */
  datatype FloatConversions = FloatConversions(
    toInt: Value -> int,
    toBits32: Value -> nat,
    toBits64: Value -> nat)

  function ToInt(v: Value, fc: FloatConversions): Option<int> {
    match v
    case IntValue(n) => Some(n)
    case Float32Value(_) => Some(fc.toInt(v))
    case Float64Value(_) => Some(fc.toInt(v))
    case _ => None
  }

  function ToBool(v: Value): Option<bool> {
    match v
    case BoolValue(b) => Some(b)
    case IntValue(n) => Some(n != 0)
    case Float32Value(bits) => Some(bits != 0 && bits != 0x8000_0000)
    case Float64Value(bits) => Some(bits != 0 && bits != 0x8000_0000_0000_0000)
    case TextValue(_) => None
  }

  /** The encoding of an unscaled value, before the byte order is applied. */
  function EncodeOrdered(v: Value, dt: DataType, fc: FloatConversions): Result<seq<byte>> {
    match dt
    case Bool => Success(ToBigEndian(if ToBool(v) == Some(true) then 1 else 0, 2))
    case Float32 =>
      if v.BoolValue? || v.TextValue? then Failure(InvalidWriteValue) else Success(ToBigEndian(fc.toBits32(v), 4))
    case Float64 =>
      if v.BoolValue? || v.TextValue? then Failure(InvalidWriteValue) else Success(ToBigEndian(fc.toBits64(v), 8))
    case OtherType => Failure(InvalidDataType)
    case _ =>
      var n := ToInt(v, fc);
      if n.None? then Failure(InvalidWriteValue)
      else Success(ToBigEndian(n.value % Pow256(Width(dt)), Width(dt)))
  }

  function ValueToBytes(v: Value, tag: Tag, fc: FloatConversions): Result<seq<byte>> {
    var plain := EncodeOrdered(v, tag.dataType, fc);
    if plain.Failure? then plain else Success(Reordered(plain.value, tag.byteOrder))
  }

  /** What cannot be written, and how a value becomes a boolean. */
  lemma EncodesExactly(v: Value, tag: Tag, fc: FloatConversions)
    ensures tag.dataType == OtherType ==> ValueToBytes(v, tag, fc) == Failure(InvalidDataType)
    ensures tag.dataType != OtherType && tag.dataType != Bool ==>
              (ValueToBytes(v, tag, fc).Failure? <==> v.BoolValue? || v.TextValue?)
    ensures ValueToBytes(v, tag, fc).Failure? && tag.dataType != OtherType ==> ValueToBytes(v, tag, fc) == Failure(InvalidWriteValue)
    ensures tag.dataType == Bool ==>
              ValueToBytes(v, tag, fc) ==
              ValueToBytes(BoolValue(match v
                                     case BoolValue(b) => b
                                     case IntValue(n) => n != 0
                                     case Float32Value(bits) => bits != 0 && bits != 0x8000_0000
                                     case Float64Value(bits) => bits != 0 && bits != 0x8000_0000_0000_0000
                                     case TextValue(_) => false), tag, fc)
  {
  }

  /** A number out of range is cut to the type's width, as its conversion does. */
  lemma WrapsAround(n: int, k: int, tag: Tag, fc: FloatConversions)
    ensures tag.dataType == Int16 || tag.dataType == UInt16 ==>
              ValueToBytes(IntValue(n + 0x1_0000 * k), tag, fc) == ValueToBytes(IntValue(n), tag, fc)
    ensures tag.dataType == Int32 || tag.dataType == UInt32 ==>
              ValueToBytes(IntValue(n + 0x1_0000_0000 * k), tag, fc) == ValueToBytes(IntValue(n), tag, fc)
    ensures tag.dataType == Int64 || tag.dataType == UInt64 ==>
              ValueToBytes(IntValue(n + 0x1_0000_0000_0000_0000 * k), tag, fc) == ValueToBytes(IntValue(n), tag, fc)
  {
    Powers();
    hide Pow256, ToBigEndian, Reordered;
    assert (n + 0x1_0000 * k) % 0x1_0000 == n % 0x1_0000;
    assert (n + 0x1_0000_0000 * k) % 0x1_0000_0000 == n % 0x1_0000_0000;
    assert (n + 0x1_0000_0000_0000_0000 * k) % 0x1_0000_0000_0000_0000 == n % 0x1_0000_0000_0000_0000;
  }

  /** The bits of a floating-point value reach the device and come back. */
  lemma FloatRoundTrip(v: Value, tag: Tag, fc: FloatConversions)
    requires ExactRegisters(tag) && (v.IntValue? || v.Float32Value? || v.Float64Value?)
    requires fc.toBits32(v) < 0x1_0000_0000 && fc.toBits64(v) < 0x1_0000_0000_0000_0000
    ensures tag.dataType == Float32 ==>
              var bytes := ValueToBytes(v, tag, fc);
              bytes.Success? && |bytes.value| == 4 && ParseValue(bytes.value, tag) == Success(Float32Value(fc.toBits32(v)))
    ensures tag.dataType == Float64 ==>
              var bytes := ValueToBytes(v, tag, fc);
              bytes.Success? && |bytes.value| == 8 && ParseValue(bytes.value, tag) == Success(Float64Value(fc.toBits64(v)))
  {
    Powers();
    hide FromBigEndian, ToBigEndian, Pow256;
    if tag.dataType == Float32 || tag.dataType == Float64 {
      var w := Width(tag.dataType);
      var bits := if w == 4 then fc.toBits32(v) else fc.toBits64(v);
      var plain := ToBigEndian(bits, w);
      var sent := Reordered(plain, tag.byteOrder);
      ReorderInvolution(plain, tag.byteOrder);
      BigEndianRoundTrip(bits, w);
      assert sent[..w] == sent && plain[..w] == plain;
    }
  }

  // ----- writing and reading back -----

  predicate InRange(n: int, dt: DataType)
    requires IsInteger(dt)
  {
    var p: int := Pow256(Width(dt));
    if IsSigned(dt) then -p <= 2 * n < p else 0 <= n < p
  }

  /** A register tag with exactly the registers its type needs. */
  predicate ExactRegisters(tag: Tag) {
    !IsBitType(tag.registerType) && 2 * tag.count == Width(tag.dataType)
  }

  lemma IntegerRoundTrip(n: int, tag: Tag, fc: FloatConversions)
    requires ExactRegisters(tag) && IsInteger(tag.dataType) && InRange(n, tag.dataType)
    ensures var bytes := ValueToBytes(IntValue(n), tag, fc);
            bytes.Success? && |bytes.value| == 2 * tag.count && ParseValue(bytes.value, tag) == Success(IntValue(n))
  {
    var w := Width(tag.dataType);
    var plain := ToBigEndian(n % Pow256(w), w);
    var sent := Reordered(plain, tag.byteOrder);
    assert ValueToBytes(IntValue(n), tag, fc) == Success(sent);
    assert sent[..w] == sent;
    ReorderInvolution(plain, tag.byteOrder);
    OrderedRoundTrip(n, tag.dataType);
  }

  lemma OrderedRoundTrip(n: int, dt: DataType)
    requires IsInteger(dt) && InRange(n, dt)
    ensures DecodeOrdered(ToBigEndian(n % Pow256(Width(dt)), Width(dt)), dt, None) == Success(IntValue(n))
  {
    hide ToBigEndian, FromBigEndian, Pow256;
    var w := Width(dt);
    SignedBack(n, Pow256(w), IsSigned(dt));
    var u: nat := n % Pow256(w);
    BigEndianRoundTrip(u, w);
    var bytes := ToBigEndian(u, w);
    assert bytes[..w] == bytes;
  }

  /** A boolean survives exactly when it is false or the tag reads bit 0 of its register:
      the encoder always writes 1, whatever the tag's bit position. */
  lemma BoolRoundTripExact(b: bool, tag: Tag, fc: FloatConversions)
    requires ExactRegisters(tag) && tag.dataType == Bool
    ensures var bytes := ValueToBytes(BoolValue(b), tag, fc);
            && bytes.Success? && |bytes.value| == 2 * tag.count
            && (ParseValue(bytes.value, tag) == Success(BoolValue(b))
                <==> (!b || tag.bitPosition == None || tag.bitPosition == Some(0)))
  {
    var plain := ToBigEndian(if b then 1 else 0, 2);
    BigEndianRoundTrip(if b then 1 else 0, 2);
    assert plain[..2] == plain;
    ReorderInvolution(plain, tag.byteOrder);
    var sent := Reordered(plain, tag.byteOrder);
    assert sent[..2] == sent;
    if tag.bitPosition.Some? {
      NoBitsBeyondWidth(0, 0, tag.bitPosition.value);
      if tag.bitPosition.value > 0 {
        NoBitsBeyondWidth(1, 1, tag.bitPosition.value);
      }
    }
  }

  /** The types whose values are all the bits of their registers. */
  predicate IsNumber(dt: DataType) { IsInteger(dt) || dt.Float32? || dt.Float64? }

  /** Decoding an integer or floating-point tag of exact width loses nothing, in any byte order. */
  lemma DecodeInjective(s: seq<byte>, t: seq<byte>, tag: Tag)
    requires ExactRegisters(tag) && IsNumber(tag.dataType) && |s| == |t| == 2 * tag.count
    requires ParseValue(s, tag) == ParseValue(t, tag)
    ensures s == t
  {
    var s', t' := Reordered(s, tag.byteOrder), Reordered(t, tag.byteOrder);
    var w := Width(tag.dataType);
    assert s[..w] == s && t[..w] == t && s'[..w] == s' && t'[..w] == t';
    BigEndianInjective(s', t');
    ReorderInvolution(s, tag.byteOrder);
    ReorderInvolution(t, tag.byteOrder);
  }
}
