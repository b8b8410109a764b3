/** Reading a list of Modbus tags in few requests. */
module ModbusClient {
  import opened Bytes
  import opened Domain
  import opened ModbusConversion
  import opened ModbusRanges
  import opened ModbusCoils
  import opened SharedBuffer
  import opened Sorting

  /** What the client meets at range k of a group: whether the caller's context is found done, whether
      there is a connection, and what the request for so many items from an address is answered. */
  datatype Device = Device(
    cancelled: (RegisterType, nat) -> bool,
    attached: (RegisterType, nat) -> bool,
    reply: (RegisterType, nat, int, int) -> Result<seq<byte>>)

  /** A fixed device memory: byte 2a and 2a+1 make register a, and one boolean per coil. */
  datatype Memory = Memory(byteAt: (RegisterType, int) -> byte, coilAt: (RegisterType, int) -> bool)

  function RegisterBytes(mem: Memory, rt: RegisterType, address: int, count: nat): (s: seq<byte>)
    ensures |s| == 2 * count
  {
    seq<byte>(2 * count, i => mem.byteAt(rt, 2 * address + i))
  }

  function Coils(mem: Memory, rt: RegisterType, address: int, count: nat): (s: seq<bool>)
    ensures |s| == count
  {
    seq(count, i => mem.coilAt(rt, address + i))
  }

  /** The reply to a legal request is a failure or what the memory holds. */
  ghost predicate Truthful(dev: Device, mem: Memory, rt: RegisterType, k: nat, address: int, count: int) {
    1 <= count <= ProtocolLimit(rt) && dev.reply(rt, k, address, count).Success? ==>
      var bytes := dev.reply(rt, k, address, count).value;
      if IsBitType(rt) then IsPacked(bytes, Coils(mem, rt, address, count))
      else bytes == RegisterBytes(mem, rt, address, count)
  }

  ghost predicate Serves(dev: Device, mem: Memory) {
    forall rt, k, address, count :: Truthful(dev, mem, rt, k, address, count)
  }

  /** Reading one tag alone: the registers or the coil at its own address. */
  function ReadAlone(mem: Memory, tag: Tag): Result<Value>
    requires Decodable(tag) || IsBitType(tag.registerType)
  {
    if IsBitType(tag.registerType) then Success(BoolValue(mem.coilAt(tag.registerType, tag.address)))
    else ParseValue(RegisterBytes(mem, tag.registerType, tag.address, tag.count), tag)
  }

  /** What tag validation guarantees, and what keeps the decoder from panicking. */
  predicate Safe(tag: Tag) {
    tag.count == 0 || IsBitType(tag.registerType) || Decodable(tag)
  }

  // ----- one range of registers -----

  function RangeSize(rng: RegisterRange): u16 { U16(U16(rng.end - rng.start) + 1) }

  function Offset(rng: RegisterRange, tag: Tag): nat { 2 * U16(tag.address - rng.start) }

  /** The shared buffer as tag i of the range finds it. */
  ghost function BufferBefore(bytes: seq<byte>, rng: RegisterRange, i: nat): (b: seq<byte>)
    requires i <= |rng.tags|
    ensures |b| == |bytes|
  {
    if i == 0 then bytes
    else
      var b, tag := BufferBefore(bytes, rng, i - 1), rng.tags[i - 1];
      if Offset(rng, tag) + 2 * tag.count > |b| then b
      else ReorderedAt(b, Offset(rng, tag), ReorderedLength(2 * tag.count, tag), tag.byteOrder)
  }

  ghost function RegisterPoint(bytes: seq<byte>, rng: RegisterRange, i: nat): DataPoint
    requires i < |rng.tags| && Safe(rng.tags[i])
  {
    var b, tag := BufferBefore(bytes, rng, i), rng.tags[i];
    var lo, len := Offset(rng, tag), 2 * tag.count;
    DataPoint(tag.id, if lo + len > |b| then Failure(InvalidDataLength) else ParseValue(b[lo..lo + len], tag))
  }

  method ReadRegisterRange(dev: Device, k: nat, rng: RegisterRange, rt: RegisterType) returns (r: Result<seq<DataPoint>>)
    requires forall t :: t in rng.tags ==> Safe(t)
    ensures !dev.attached(rt, k) ==> r == Failure(ConnectionClosed)
    ensures dev.attached(rt, k) && rt != HoldingRegister && rt != InputRegister ==> r == Failure(InvalidRegisterType)
    ensures dev.attached(rt, k) && (rt == HoldingRegister || rt == InputRegister) ==>
              var reply := dev.reply(rt, k, rng.start, RangeSize(rng));
              if reply.Failure? then r == Failure(reply.error)
              else r.Success? && |r.value| == |rng.tags| &&
                   forall i :: 0 <= i < |rng.tags| ==> r.value[i] == RegisterPoint(reply.value, rng, i)
  {
    if !dev.attached(rt, k) {
      return Failure(ConnectionClosed);
    }
    if rt != HoldingRegister && rt != InputRegister {
      return Failure(InvalidRegisterType);
    }
    var reply := dev.reply(rt, k, rng.start, RangeSize(rng));
    if reply.Failure? {
      return Failure(reply.error);
    }
    var bytes := reply.value;
    var raw := new byte[|bytes|](i requires 0 <= i < |bytes| => bytes[i]);
    assert raw[..] == bytes;
    var points := [];
    for i := 0 to |rng.tags|
      invariant raw[..] == BufferBefore(bytes, rng, i)
      invariant |points| == i
      invariant forall j :: 0 <= j < i ==> points[j] == RegisterPoint(bytes, rng, j)
    {
      var point := ExtractPoint(raw, rng, i, bytes);
      points := points + [point];
    }
    return Success(points);
  }

  /** Takes tag i's value out of the shared buffer, leaving its window reordered. */
  method ExtractPoint(raw: array<byte>, rng: RegisterRange, i: nat, ghost bytes: seq<byte>) returns (point: DataPoint)
    requires i < |rng.tags| && Safe(rng.tags[i])
    requires raw[..] == BufferBefore(bytes, rng, i)
    modifies raw
    ensures point == RegisterPoint(bytes, rng, i)
    ensures raw[..] == BufferBefore(bytes, rng, i + 1)
  {
    var tag := rng.tags[i];
    var lo, len := Offset(rng, tag), 2 * tag.count;
    if lo + len > raw.Length {
      return DataPoint(tag.id, Failure(InvalidDataLength));
    }
    assert raw[lo..lo + len] == raw[..][lo..lo + len];
    var value := ParseInPlace(raw, lo, len, tag);
    return DataPoint(tag.id, value);
  }

  // ----- one range of coils -----

  function CoilPoint(bytes: seq<byte>, rng: RegisterRange, i: nat): DataPoint
    requires i < |rng.tags|
  {
    var tag := rng.tags[i];
    var bit: nat := U16(tag.address - rng.start);
    DataPoint(tag.id,
      if bit / 8 >= |bytes| then Failure(InvalidDataLength) else Success(BoolValue(Bit(bytes[bit / 8], bit % 8))))
  }

  method ReadCoilRange(dev: Device, k: nat, rng: RegisterRange, rt: RegisterType) returns (r: Result<seq<DataPoint>>)
    ensures !dev.attached(rt, k) ==> r == Failure(ConnectionClosed)
    ensures dev.attached(rt, k) && !IsBitType(rt) ==> r == Failure(InvalidRegisterType)
    ensures dev.attached(rt, k) && IsBitType(rt) ==>
              var reply := dev.reply(rt, k, rng.start, RangeSize(rng));
              if reply.Failure? then r == Failure(reply.error)
              else r.Success? && |r.value| == |rng.tags| &&
                   forall i :: 0 <= i < |rng.tags| ==> r.value[i] == CoilPoint(reply.value, rng, i)
  {
    if !dev.attached(rt, k) {
      return Failure(ConnectionClosed);
    }
    if !IsBitType(rt) {
      return Failure(InvalidRegisterType);
    }
    var reply := dev.reply(rt, k, rng.start, RangeSize(rng));
    if reply.Failure? {
      return Failure(reply.error);
    }
    var points := [];
    for i := 0 to |rng.tags|
      invariant |points| == i
      invariant forall j :: 0 <= j < i ==> points[j] == CoilPoint(reply.value, rng, j)
    {
      points := points + [CoilPoint(reply.value, rng, i)];
    }
    return Success(points);
  }

  // ----- a range read against a fixed memory -----

  /** The part of the reply each tag decodes, in the order the tags are decoded. */
  ghost function Windows(rng: RegisterRange): (ws: seq<Window>)
    ensures |ws| == |rng.tags|
  {
    seq(|rng.tags|, i requires 0 <= i < |rng.tags| =>
      Window(Offset(rng, rng.tags[i]), 2 * rng.tags[i].count, rng.tags[i].byteOrder))
  }

  /** A range the builder makes of register tags that passed validation. */
  ghost predicate RegisterHull(rng: RegisterRange, rt: RegisterType) {
    && ExactHull(rng, rt) && !IsBitType(rt)
    && forall t :: t in rng.tags ==> t.registerType == rt && Decodable(t)
  }

  lemma {:induction false} BufferIsReplay(bytes: seq<byte>, rng: RegisterRange, rt: RegisterType, i: nat)
    requires RegisterHull(rng, rt)
    requires |bytes| == 2 * (rng.end - rng.start + 1) && i <= |rng.tags|
    ensures Fits(Windows(rng), |bytes|)
    ensures BufferBefore(bytes, rng, i) == Replay(bytes, Windows(rng), i)
  {
    if i > 0 {
      BufferIsReplay(bytes, rng, rt, i - 1);
      var tag := rng.tags[i - 1];
      assert tag in rng.tags && rng.start <= tag.address;
    }
  }

  /** Within a hull the out-of-range branch is not taken, and the tag decodes what it is handed. */
  lemma PointDecodesWindow(bytes: seq<byte>, rng: RegisterRange, rt: RegisterType, i: nat)
    requires RegisterHull(rng, rt)
    requires |bytes| == 2 * (rng.end - rng.start + 1) && i < |rng.tags|
    ensures Fits(Windows(rng), |bytes|)
    ensures RegisterPoint(bytes, rng, i) ==
            DataPoint(rng.tags[i].id, ParseValue(Handed(bytes, Windows(rng), i), rng.tags[i]))
  {
    BufferIsReplay(bytes, rng, rt, i);
    assert rng.tags[i] in rng.tags;
  }

  /** The bytes of tag i's own window of the reply are its own registers. */
  lemma OwnWindow(mem: Memory, rng: RegisterRange, rt: RegisterType, i: nat)
    requires ExactHull(rng, rt) && i < |rng.tags|
    ensures var w, tag := Windows(rng)[i], rng.tags[i];
            && w.off + w.len <= 2 * (rng.end - rng.start + 1)
            && RegisterBytes(mem, rt, rng.start, rng.end - rng.start + 1)[w.off..w.off + w.len]
               == RegisterBytes(mem, rt, tag.address, tag.count)
  {
    var w, tag := Windows(rng)[i], rng.tags[i];
    assert tag in rng.tags;
    var whole := RegisterBytes(mem, rt, rng.start, rng.end - rng.start + 1);
    forall k | 0 <= k < w.len
      ensures whole[w.off..w.off + w.len][k] == RegisterBytes(mem, rt, tag.address, tag.count)[k]
    {
      assert 2 * rng.start + (w.off + k) == 2 * tag.address + k;
    }
  }

  /** In a range read at once, tag i gets the value that reading it alone gives. */
  ghost predicate PointAgrees(mem: Memory, rng: RegisterRange, rt: RegisterType, i: nat)
    requires RegisterHull(rng, rt) && i < |rng.tags|
  {
    assert rng.tags[i] in rng.tags;
    RegisterPoint(RegisterBytes(mem, rt, rng.start, rng.end - rng.start + 1), rng, i)
    == DataPoint(rng.tags[i].id, ReadAlone(mem, rng.tags[i]))
  }

  lemma PointAgreesMeans(mem: Memory, rng: RegisterRange, rt: RegisterType, i: nat, bytes: seq<byte>)
    requires RegisterHull(rng, rt) && i < |rng.tags|
    requires bytes == RegisterBytes(mem, rt, rng.start, rng.end - rng.start + 1)
    ensures Fits(Windows(rng), |bytes|)
    ensures var w, tag := Windows(rng)[i], rng.tags[i];
            PointAgrees(mem, rng, rt, i) <==>
            ParseValue(Handed(bytes, Windows(rng), i), tag) == ParseValue(bytes[w.off..w.off + w.len], tag)
  {
    assert rng.tags[i] in rng.tags;
    PointDecodesWindow(bytes, rng, rt, i);
    OwnWindow(mem, rng, rt, i);
  }

  /** A tag of a range read in one request gets what reading it alone gives, provided the tags before
      it left its bytes in their places. */
  lemma RangeRefinesAlone(mem: Memory, rng: RegisterRange, rt: RegisterType, i: nat)
    requires RegisterHull(rng, rt) && i < |rng.tags| && OwnPlaces(Windows(rng), i)
    ensures PointAgrees(mem, rng, rt, i)
  {
    var bytes := RegisterBytes(mem, rt, rng.start, rng.end - rng.start + 1);
    PointAgreesMeans(mem, rng, rt, i, bytes);
    GivenOwnBytes(bytes, Windows(rng), i);
  }

  lemma CoilRangeRefinesAlone(mem: Memory, bytes: seq<byte>, rng: RegisterRange, rt: RegisterType, i: nat)
    requires ExactHull(rng, rt) && IsBitType(rt) && i < |rng.tags|
    requires (forall t :: t in rng.tags ==> t.registerType == rt && t.count >= 1)
    requires IsPacked(bytes, Coils(mem, rt, rng.start, rng.end - rng.start + 1))
    ensures CoilPoint(bytes, rng, i) == DataPoint(rng.tags[i].id, ReadAlone(mem, rng.tags[i]))
  {
    var tag := rng.tags[i];
    assert tag in rng.tags;
    var bit := tag.address - rng.start;
    assert bit / 8 < |bytes| && PackedBit(bytes, bit) == Coils(mem, rt, rng.start, rng.end - rng.start + 1)[bit];
  }

  ghost predicate RangeAgrees(mem: Memory, rng: RegisterRange, rt: RegisterType)
    requires RegisterHull(rng, rt)
  {
    forall i :: 0 <= i < |rng.tags| ==> PointAgrees(mem, rng, rt, i)
  }

  predicate IsExactNumber(t: Tag) { ExactRegisters(t) && IsNumber(t.dataType) }

  ghost predicate NumberTags(tags: seq<Tag>) {
    forall t :: t in tags ==> IsExactNumber(t)
  }

  /** For an integer or floating-point tag of exact width the condition is exact: its value is right for every
      memory if and only if its bytes are in their places when it is decoded. */
  lemma PointAgreesExactly(rng: RegisterRange, rt: RegisterType, i: nat)
    requires RegisterHull(rng, rt) && i < |rng.tags| && IsExactNumber(rng.tags[i])
    ensures (forall mem: Memory :: PointAgrees(mem, rng, rt, i)) <==> OwnPlaces(Windows(rng), i)
  {
    if OwnPlaces(Windows(rng), i) {
      forall mem: Memory ensures PointAgrees(mem, rng, rt, i) {
        RangeRefinesAlone(mem, rng, rt, i);
      }
    } else {
      var mem := WrongMemory(rng, rt, i);
    }
  }

  lemma WrongMemory(rng: RegisterRange, rt: RegisterType, i: nat) returns (mem: Memory)
    requires RegisterHull(rng, rt) && i < |rng.tags| && IsExactNumber(rng.tags[i]) && !OwnPlaces(Windows(rng), i)
    ensures !PointAgrees(mem, rng, rt, i)
  {
    var n := 2 * (rng.end - rng.start + 1);
    var zero: seq<byte> := seq(n, _ => 0);
    BufferIsReplay(zero, rng, rt, 0);
    var buf := ForeignByte(Windows(rng), n, i);
    mem := MemoryHolding(buf, rng, rt);
    ForeignBytesShow(mem, buf, rng, rt, i);
  }

  /** And so for a whole range: all its values are right for every memory if and only if no tag's byte
      order moves a byte that a later tag of the range reads. */
  lemma RangeAgreesExactly(rng: RegisterRange, rt: RegisterType)
    requires RegisterHull(rng, rt) && NumberTags(rng.tags)
    ensures (forall mem: Memory :: RangeAgrees(mem, rng, rt)) <==> Undisturbed(Windows(rng))
  {
    OwnPlacesExactly(Windows(rng));
    if Undisturbed(Windows(rng)) {
      forall mem: Memory, i | 0 <= i < |rng.tags| ensures PointAgrees(mem, rng, rt, i) {
        RangeRefinesAlone(mem, rng, rt, i);
      }
    } else {
      var i :| 0 <= i < |rng.tags| && !OwnPlaces(Windows(rng), i);
      assert rng.tags[i] in rng.tags;
      var mem := WrongMemory(rng, rt, i);
      assert !RangeAgrees(mem, rng, rt);
    }
  }

  lemma MemoryHolding(buf: seq<byte>, rng: RegisterRange, rt: RegisterType) returns (mem: Memory)
    requires rng.start <= rng.end && |buf| == 2 * (rng.end - rng.start + 1)
    ensures RegisterBytes(mem, rt, rng.start, rng.end - rng.start + 1) == buf
  {
    var base := 2 * rng.start;
    mem := Memory((t, a) => if base <= a < base + |buf| then buf[a - base] else 0, (t, a) => false);
  }

  lemma ForeignBytesShow(mem: Memory, buf: seq<byte>, rng: RegisterRange, rt: RegisterType, j: nat)
    requires RegisterHull(rng, rt)
    requires buf == RegisterBytes(mem, rt, rng.start, rng.end - rng.start + 1)
    requires Fits(Windows(rng), |buf|) && j < |rng.tags| && IsExactNumber(rng.tags[j]) && !GivenOwn(buf, Windows(rng), j)
    ensures !PointAgrees(mem, rng, rt, j)
  {
    var tag, w := rng.tags[j], Windows(rng)[j];
    assert tag in rng.tags;
    PointAgreesMeans(mem, rng, rt, j, buf);
    if PointAgrees(mem, rng, rt, j) {
      DecodeInjective(Handed(buf, Windows(rng), j), buf[w.off..w.off + w.len], tag);
    }
  }

  /** The failing family is not empty: of two validated little-endian tags on one register, which the
      builder puts into one range, the second is given the bytes the first has already swapped. */
  lemma OverlapExample() returns (a: Tag, b: Tag, rng: RegisterRange, mem: Memory)
    ensures WithinLimits(a) && WithinLimits(b) && RangesOf([a, b], REGISTER_BATCH) == [rng]
    ensures RegisterHull(rng, HoldingRegister) && rng.tags == [a, b]
    ensures PointAgrees(mem, rng, HoldingRegister, 0) && !PointAgrees(mem, rng, HoldingRegister, 1)
  {
    a := Tag("a", 0, HoldingRegister, UInt16, LittleEndian, 1, None);
    b := a.(id := "b");
    rng := RegisterRange(0, 0, [a, b]);
    TwoTagRange(a, b);
    hide RangesOf, OwnPlaces, PointAgrees;
    TwoTagHull(a, b, rng);
    mem := WrongMemory(rng, HoldingRegister, 1);
    RangeRefinesAlone(mem, rng, HoldingRegister, 0);
  }

  lemma TwoTagHull(a: Tag, b: Tag, rng: RegisterRange)
    requires a == Tag("a", 0, HoldingRegister, UInt16, LittleEndian, 1, None) && b == a.(id := "b")
    requires rng == RegisterRange(0, 0, [a, b])
    ensures RegisterHull(rng, HoldingRegister) && IsExactNumber(b)
    ensures OwnPlaces(Windows(rng), 0) && !OwnPlaces(Windows(rng), 1)
  {
    assert a in rng.tags;
    var ws := Windows(rng);
    assert ws == [Window(0, 2, LittleEndian), Window(0, 2, LittleEndian)];
    hide Windows, RegisterHull;
    SwappedTwice(ws);
  }

  lemma SwappedTwice(ws: seq<Window>)
    requires ws == [Window(0, 2, LittleEndian), Window(0, 2, LittleEndian)]
    ensures OwnPlaces(ws, 0) && !OwnPlaces(ws, 1)
  {
    assert ws[1].Inside(0) && Came(ws[0], 0) == 1;
    assert Origin(ws, 1, 0) == Origin(ws, 0, 1) == 1;
  }

  lemma TwoTagRange(a: Tag, b: Tag)
    requires a.address == b.address == 0 && a.count == b.count == 1
    ensures RangesOf([a, b], REGISTER_BATCH) == [RegisterRange(0, 0, [a, b])]
  {
    var sorted, merged := [a, b], RegisterRange(0, 0, [a, b]);
    SortedPair(a, b);
    assert Extended(Fresh(a), b) == merged && Mergeable(Fresh(a), b, REGISTER_BATCH);
    hide MergeFrom, StableSorted, Mergeable, Extended, Fresh;
    MergeStep(Fresh(a), sorted, 1, REGISTER_BATCH);
    MergeEnd(merged, sorted, REGISTER_BATCH);
  }

  lemma SortedPair(a: Tag, b: Tag)
    requires a.address <= b.address
    ensures SortedTags([a, b]) == [a, b]
  {
    assert [a, b][..1] == [a] && [a][..0] == [];
    assert StableSorted([a], Address) == Inserted([], a, Address);
  }
}
