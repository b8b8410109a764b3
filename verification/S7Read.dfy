/** Reading S7 tags through merged byte ranges, in chunks of items per request. */
module S7Read {
  import opened Bytes
  import opened Domain
  import opened S7Batch

  /** What the client meets. Requests and context polls are numbered by chunk, items by range; an item
      fails or is filled from a plain byte memory. */
  datatype Device = Device(
    attached: nat -> bool,
    cancelled: nat -> bool,
    requestError: nat -> Option<Error>,
    itemError: nat -> Option<Error>,
    byteAt: (Area, int, int) -> byte)

  function ByteCount(dt: DataType): (n: nat)
    ensures n >= 1
  {
    match dt
    case Bool => 1
    case Int16 | UInt16 => 2
    case Int32 | UInt32 | Float32 => 4
    case Int64 | UInt64 | Float64 => 8
    case OtherType => 1
  }

  /** The decoder's own length checks, before it reads anything. */
  function ParseValue(data: seq<byte>, dt: DataType, bit: nat): Result<Value> {
    if |data| == 0 then Failure(InvalidDataLength)
    else if dt == Bool then Success(BoolValue(Bit(data[0], bit)))
    else if dt == OtherType then Failure(InvalidDataType)
    else if |data| < Width(dt) then Failure(InvalidDataLength)
    else
      var u := FromBigEndian(data[..Width(dt)]);
      Success(match dt
              case Float32 => Float32Value(u)
              case Float64 => Float64Value(u)
              case _ => IntValue(if IsSigned(dt) && 2 * u >= Pow256(Width(dt)) then u - Pow256(Width(dt)) else u))
  }

  // ----- what is decoded, from the bytes themselves -----

  lemma ParsesExactly(data: seq<byte>, dt: DataType, bit: nat)
    ensures data == [] ==> ParseValue(data, dt, bit) == Failure(InvalidDataLength)
    ensures data != [] && dt == Bool ==> ParseValue(data, dt, bit) == Success(BoolValue(Bit(data[0], bit)))
    ensures data != [] && dt == OtherType ==> ParseValue(data, dt, bit) == Failure(InvalidDataType)
    ensures (dt == Int16 || dt == UInt16) && |data| < 2 ==> ParseValue(data, dt, bit) == Failure(InvalidDataLength)
    ensures (dt == Int32 || dt == UInt32 || dt == Float32) && |data| < 4 ==> ParseValue(data, dt, bit) == Failure(InvalidDataLength)
    ensures (dt == Int64 || dt == UInt64 || dt == Float64) && |data| < 8 ==> ParseValue(data, dt, bit) == Failure(InvalidDataLength)
    ensures dt == UInt16 && |data| >= 2 ==> ParseValue(data, dt, bit) == Success(IntValue(Sum16(data)))
    ensures dt == Int16 && |data| >= 2 ==>
              ParseValue(data, dt, bit) == Success(IntValue(if Sum16(data) < 0x8000 then Sum16(data) else Sum16(data) - 0x1_0000))
    ensures dt == UInt32 && |data| >= 4 ==> ParseValue(data, dt, bit) == Success(IntValue(Sum32(data)))
    ensures dt == Int32 && |data| >= 4 ==>
              ParseValue(data, dt, bit) ==
              Success(IntValue(if Sum32(data) < 0x8000_0000 then Sum32(data) else Sum32(data) - 0x1_0000_0000))
    ensures dt == UInt64 && |data| >= 8 ==> ParseValue(data, dt, bit) == Success(IntValue(Sum64(data)))
    ensures dt == Int64 && |data| >= 8 ==>
              ParseValue(data, dt, bit) ==
              Success(IntValue(if Sum64(data) < 0x8000_0000_0000_0000 then Sum64(data) else Sum64(data) - 0x1_0000_0000_0000_0000))
    ensures dt == Float32 && |data| >= 4 ==> ParseValue(data, dt, bit) == Success(Float32Value(Sum32(data)))
    ensures dt == Float64 && |data| >= 8 ==> ParseValue(data, dt, bit) == Success(Float64Value(Sum64(data)))
  {
    hide FromBigEndian;
    Powers();
    hide Pow256, Bit;
    if |data| >= 2 && Width(dt) == 2 {
      BigEndian2(data[..2]);
    } else if |data| >= 4 && Width(dt) == 4 {
      BigEndian4(data[..4]);
    } else if |data| >= 8 && Width(dt) == 8 {
      BigEndian8(data[..8]);
    }
  }

  /** Decoding inverts big-endian encoding for every in-range number of every integer type. */
  lemma ParsesEncoded(n: int, dt: DataType, bit: nat)
    requires IsInteger(dt)
    requires var p: int := Pow256(Width(dt)); if IsSigned(dt) then -p <= 2 * n < p else 0 <= n < p
    ensures ParseValue(ToBigEndian(n % Pow256(Width(dt)), Width(dt)), dt, bit) == Success(IntValue(n))
  {
    hide ToBigEndian, FromBigEndian, Pow256, Bit;
    var w := Width(dt);
    SignedBack(n, Pow256(w), IsSigned(dt));
    var u: nat := n % Pow256(w);
    BigEndianRoundTrip(u, w);
    var bytes := ToBigEndian(u, w);
    assert bytes[..w] == bytes;
  }

  /** The bytes requested for a tag of a supported type are enough to decode it. */
  lemma EnoughBytes(data: seq<byte>, dt: DataType, bit: nat)
    requires |data| == ByteCount(dt)
    ensures dt != OtherType ==> ParseValue(data, dt, bit).Success?
    ensures ByteCount(dt) == match dt
                             case Bool => 1
                             case Int16 | UInt16 => 2
                             case Int32 | UInt32 | Float32 => 4
                             case Int64 | UInt64 | Float64 => 8
                             case OtherType => 1
  {
  }

  function BytesAt(dev: Device, area: Area, db: int, offset: int, n: nat): (s: seq<byte>)
    ensures |s| == n
  {
    seq<byte>(n, i => dev.byteAt(area, db, offset + i))
  }

  /** Reading one tag alone from its own area, data block and offset. */
  function ReadAlone(dev: Device, p: ParsedTag): Result<Value> {
    ParseValue(BytesAt(dev, p.at.area, p.at.db, p.at.offset, p.byteCount), p.tag.dataType, p.at.bit)
  }

  /** What a tag of range k gets: the error of that range's item, or the value it has on its own. */
  function Answer(dev: Device, k: nat, p: ParsedTag): DataPoint {
    DataPoint(p.tag.id, if dev.itemError(k).Some? then Failure(dev.itemError(k).value) else ReadAlone(dev, p))
  }

  /** In terms of the device: the error of item k, or the tag's own bytes decoded. */
  lemma AnswerMeans(dev: Device, k: nat, p: ParsedTag) returns (own: seq<byte>)
    ensures |own| == p.byteCount && forall j :: 0 <= j < |own| ==> own[j] == dev.byteAt(p.at.area, p.at.db, p.at.offset + j)
    ensures Answer(dev, k, p).tagId == p.tag.id
    ensures match dev.itemError(k)
            case Some(e) => Answer(dev, k, p).outcome == Failure(e)
            case None => Answer(dev, k, p).outcome == ParseValue(own, p.tag.dataType, p.at.bit)
  {
    own := BytesAt(dev, p.at.area, p.at.db, p.at.offset, p.byteCount);
  }

  /** A parsed tag placed in range k. */
  datatype Spot = Spot(k: nat, tag: ParsedTag)

  ghost function RangeSpots(ranges: seq<ByteRange>, k: nat): (s: seq<Spot>)
    requires k < |ranges|
    ensures |s| == |ranges[k].tags|
  {
    seq(|ranges[k].tags|, j requires 0 <= j < |ranges[k].tags| => Spot(k, Absolute(ranges[k], ranges[k].tags[j])))
  }

  /** The spots of the first n ranges. */
  ghost function Spots(ranges: seq<ByteRange>, n: nat): seq<Spot>
    requires n <= |ranges|
  {
    if n == 0 then [] else Spots(ranges, n - 1) + RangeSpots(ranges, n - 1)
  }

  /** The points recorded so far are the answers of all spots so far. */
  ghost predicate Records(dev: Device, spots: seq<Spot>, points: map<string, DataPoint>) {
    forall i :: 0 <= i < |spots| ==> Recorded(dev, spots[i], points)
  }

  predicate Recorded(dev: Device, s: Spot, points: map<string, DataPoint>) {
    s.tag.tag.id in points && points[s.tag.tag.id] == Answer(dev, s.k, s.tag)
  }

  /** No two spots share an identifier. */
  ghost predicate DistinctIds(spots: seq<Spot>) {
    forall i, j :: 0 <= i < j < |spots| ==> spots[i].tag.tag.id != spots[j].tag.tag.id
  }

  // ----- one range -----

  /** The data point of a tag of range k, from the item the range was read as. */
  function RangePoint(dev: Device, k: nat, r: ByteRange, t: TagInRange): DataPoint
    requires 0 <= t.offset && t.offset + t.byteCount <= r.total
  {
    var error := dev.itemError(k);
    DataPoint(t.tag.id,
      if error.Some? then Failure(error.value)
      else ParseValue(BytesAt(dev, r.area, r.db, r.start, r.total)[t.offset..t.offset + t.byteCount], t.tag.dataType, t.bit))
  }

  lemma RangePointAnswers(dev: Device, k: nat, r: ByteRange, t: TagInRange)
    requires 0 <= t.offset && t.offset + t.byteCount <= r.total
    ensures RangePoint(dev, k, r, t) == Answer(dev, k, Absolute(r, t))
  {
    var p := Absolute(r, t);
    assert BytesAt(dev, r.area, r.db, r.start, r.total)[t.offset..t.offset + t.byteCount]
        == BytesAt(dev, r.area, r.db, p.at.offset, t.byteCount);
  }

  /** Extracts every tag of a range that was read. The range holds each tag's bytes, so the
      code's buffer-overrun branch has no counterpart here: it is never taken. */
  method ExtractRange(dev: Device, ranges: seq<ByteRange>, k: nat, points: map<string, DataPoint>)
    returns (points': map<string, DataPoint>)
    requires k < |ranges| && Fits(ranges[k]) && Records(dev, Spots(ranges, k), points) && DistinctIds(Spots(ranges, k + 1))
    ensures Records(dev, Spots(ranges, k + 1), points')
  {
    hide Spots, Records, DistinctIds;
    points' := points;
    var r := ranges[k];
    ghost var before, here := Spots(ranges, k), RangeSpots(ranges, k);
    SpotsNext(ranges, k);
    assert before + here[..0] == before;
    for i := 0 to |r.tags|
      invariant Records(dev, before + here[..i], points')
    {
      var t := r.tags[i];
      var dp := RangePoint(dev, k, r, t);
      RangePointAnswers(dev, k, r, t);
      assert before + here[..i] + [here[i]] == before + here[..i + 1];
      assert before + here[..i + 1] <= before + here;
      RecordOne(dev, before + here[..i], points', here[i], dp, before + here);
      points' := points'[t.tag.id := dp];
    }
    assert here[..|r.tags|] == here;
  }

  lemma SpotsNext(ranges: seq<ByteRange>, k: nat)
    requires k < |ranges|
    ensures Spots(ranges, k + 1) == Spots(ranges, k) + RangeSpots(ranges, k)
  {
  }

  lemma RecordOne(dev: Device, spots: seq<Spot>, points: map<string, DataPoint>, s: Spot, dp: DataPoint, all: seq<Spot>)
    requires Records(dev, spots, points) && dp == Answer(dev, s.k, s.tag)
    requires spots + [s] <= all && DistinctIds(all)
    ensures Records(dev, spots + [s], points[s.tag.tag.id := dp])
  {
    hide Answer;
    var n := |spots|;
    assert all[n] == (spots + [s])[n] == s;
    forall i | 0 <= i < n ensures Recorded(dev, spots[i], points[s.tag.tag.id := dp]) {
      assert all[i] == (spots + [s])[i] == spots[i];
      assert Recorded(dev, spots[i], points);
    }
    assert Recorded(dev, s, points[s.tag.tag.id := dp]);
  }

  // ----- a chunk of ranges -----

  predicate KnownArea(a: Area) { !a.OtherArea? }

  predicate AllKnown(ranges: seq<ByteRange>, lo: nat, hi: nat)
    requires lo <= hi <= |ranges|
  {
    forall i :: lo <= i < hi ==> KnownArea(ranges[i].area)
  }

  /** Why request c, for the ranges from lo up to hi, fails as a whole, if it does. */
  function ChunkError(dev: Device, ranges: seq<ByteRange>, lo: nat, hi: nat, c: nat): Option<Error>
    requires lo <= hi <= |ranges|
  {
    if !AllKnown(ranges, lo, hi) then Some(InvalidArea)
    else if !dev.attached(c) then Some(ConnectionClosed)
    else dev.requestError(c)
  }

  /** readContiguousRanges: one request, one item per range. */
  method ReadChunk(dev: Device, ranges: seq<ByteRange>, lo: nat, hi: nat, c: nat, points: map<string, DataPoint>)
    returns (r: Result<map<string, DataPoint>>)
    requires lo <= hi <= |ranges| && AllFit(ranges) && DistinctIds(Spots(ranges, |ranges|)) && Records(dev, Spots(ranges, lo), points)
    ensures var error := ChunkError(dev, ranges, lo, hi, c);
            if error.Some? then r == Failure(error.value) else r.Success? && Records(dev, Spots(ranges, hi), r.value)
    ensures r.Success? <==> (forall i :: lo <= i < hi ==> !ranges[i].area.OtherArea?) && dev.attached(c) && dev.requestError(c) == None
    ensures r.Failure? ==>
              if exists i :: lo <= i < hi && ranges[i].area.OtherArea? then r.error == InvalidArea
              else if !dev.attached(c) then r.error == ConnectionClosed else dev.requestError(c) == Some(r.error)
  {
    hide Spots, Records, DistinctIds;
    for i := lo to hi
      invariant AllKnown(ranges, lo, i)
    {
      if !KnownArea(ranges[i].area) {
        return Failure(InvalidArea);
      }
    }
    if !dev.attached(c) {
      return Failure(ConnectionClosed);
    }
    if dev.requestError(c).Some? {
      return Failure(dev.requestError(c).value);
    }
    var points' := points;
    for i := lo to hi
      invariant Records(dev, Spots(ranges, i), points')
    {
      DistinctPrefix(ranges, i + 1, |ranges|);
      points' := ExtractRange(dev, ranges, i, points');
    }
    return Success(points');
  }

  lemma {:induction false} SpotsPrefix(ranges: seq<ByteRange>, n: nat, m: nat)
    requires n <= m <= |ranges|
    ensures Spots(ranges, n) <= Spots(ranges, m)
  {
    if n < m {
      SpotsPrefix(ranges, n, m - 1);
    }
  }

  lemma DistinctPrefix(ranges: seq<ByteRange>, n: nat, m: nat)
    requires n <= m <= |ranges| && DistinctIds(Spots(ranges, m))
    ensures DistinctIds(Spots(ranges, n))
  {
    SpotsPrefix(ranges, n, m);
    var some, all := Spots(ranges, n), Spots(ranges, m);
    forall i, j | 0 <= i < j < |some| ensures some[i].tag.tag.id != some[j].tag.tag.id {
      assert all[i] == some[i] && all[j] == some[j];
    }
  }

  // ----- all chunks -----

  function ChunkEnd(ranges: seq<ByteRange>, lo: nat): (hi: nat)
    ensures lo <= |ranges| ==> lo <= hi <= |ranges| && (hi == lo + 20 || (hi == |ranges| && hi < lo + 20))
  {
    if lo + MAX_ITEMS > |ranges| then |ranges| else lo + MAX_ITEMS
  }

  /** Why the read as a whole fails: the first reason met going through the chunks from request c on. */
  function FirstError(dev: Device, ranges: seq<ByteRange>, lo: nat, c: nat): Option<Error>
    requires lo <= |ranges|
    decreases |ranges| - lo
  {
    if lo == |ranges| then None
    else if dev.cancelled(c) then Some(Cancelled)
    else
      var error := ChunkError(dev, ranges, lo, ChunkEnd(ranges, lo), c);
      if error.Some? then error else FirstError(dev, ranges, ChunkEnd(ranges, lo), c + 1)
  }

  /** Chunk c, of up to 20 ranges, can be read: the context is live, the areas are known, there is a connection
      and the request succeeds. */
  predicate ChunkOk(dev: Device, ranges: seq<ByteRange>, c: nat) {
    && !dev.cancelled(c) && dev.attached(c) && dev.requestError(c) == None
    && forall i :: 20 * c <= i < 20 * c + 20 && i < |ranges| ==> !ranges[i].area.OtherArea?
  }

  /** The read as a whole fails exactly if one of its chunks does, and then for the reason of the first. */
  lemma {:induction false} FailsExactly(dev: Device, ranges: seq<ByteRange>, lo: nat, c: nat)
    requires lo == 20 * c <= |ranges| || (lo == |ranges| && 20 * c > |ranges|)
    ensures FirstError(dev, ranges, lo, c) == None <==> forall k :: k >= c && 20 * k < |ranges| ==> ChunkOk(dev, ranges, k)
    ensures FirstError(dev, ranges, lo, c).Some? ==>
              exists k :: k >= c && 20 * k < |ranges| && FailsAt(dev, ranges, c, k, FirstError(dev, ranges, lo, c).value)
    decreases |ranges| - lo
  {
    if lo < |ranges| {
      var hi, error := ChunkEnd(ranges, lo), FirstError(dev, ranges, lo, c);
      OneChunk(dev, ranges, lo, c);
      if ChunkOk(dev, ranges, c) {
        FailsExactly(dev, ranges, hi, c + 1);
        if error.Some? {
          var k :| k >= c + 1 && 20 * k < |ranges| && FailsAt(dev, ranges, c + 1, k, error.value);
          assert FailsAt(dev, ranges, c, k, error.value);
        }
      } else {
        assert FailsAt(dev, ranges, c, c, error.value);
      }
    }
  }

  /** Chunk k is the first from c on that cannot be read, for this reason. */
  ghost predicate FailsAt(dev: Device, ranges: seq<ByteRange>, c: nat, k: nat, e: Error) {
    && (forall j :: c <= j < k ==> ChunkOk(dev, ranges, j))
    && !ChunkOk(dev, ranges, k)
    && (if dev.cancelled(k) then e == Cancelled
        else if exists i :: 20 * k <= i < 20 * k + 20 && i < |ranges| && ranges[i].area.OtherArea? then e == InvalidArea
        else if !dev.attached(k) then e == ConnectionClosed else dev.requestError(k) == Some(e))
  }

  lemma OneChunk(dev: Device, ranges: seq<ByteRange>, lo: nat, c: nat)
    requires lo == 20 * c < |ranges|
    ensures var hi := ChunkEnd(ranges, lo);
            if ChunkOk(dev, ranges, c) then FirstError(dev, ranges, lo, c) == FirstError(dev, ranges, hi, c + 1)
            else FirstError(dev, ranges, lo, c).Some? && FailsAt(dev, ranges, c, c, FirstError(dev, ranges, lo, c).value)
  {
  }

  /** Reads the ranges chunk by chunk until all are done or something fails. */
  method ReadAllChunks(dev: Device, ranges: seq<ByteRange>) returns (r: Result<map<string, DataPoint>>)
    requires AllFit(ranges) && DistinctIds(Spots(ranges, |ranges|))
    ensures var error := FirstError(dev, ranges, 0, 0);
            if error.Some? then r == Failure(error.value) else r.Success? && Records(dev, Spots(ranges, |ranges|), r.value)
  {
    hide Spots, DistinctIds, AllFit, ChunkError;
    var points: map<string, DataPoint> := map[];
    assert Records(dev, Spots(ranges, 0), points) by { NoSpots(dev, ranges, points); }
    hide Records;
    var i, c := 0, 0;
    while i < |ranges|
      invariant 0 <= i <= |ranges|
      invariant Records(dev, Spots(ranges, i), points)
      invariant FirstError(dev, ranges, i, c) == FirstError(dev, ranges, 0, 0)
    {
      var end := ChunkEnd(ranges, i);
      if dev.cancelled(c) {
        return Failure(Cancelled);
      }
      var chunk := ReadChunk(dev, ranges, i, end, c, points);
      if chunk.Failure? {
        return chunk;
      }
      points, i, c := chunk.value, end, c + 1;
    }
    return Success(points);
  }

  lemma NoSpots(dev: Device, ranges: seq<ByteRange>, points: map<string, DataPoint>)
    ensures Records(dev, Spots(ranges, 0), points)
  {
  }

  // ----- the whole read -----

  function Parsed(t: Tag): ParsedTag
    requires t.address.Success?
  {
    ParsedTag(t, t.address.value, ByteCount(t.dataType))
  }

  /** The first address from tag i on that does not parse. */
  function FirstBadAddress(tags: seq<Tag>, i: nat): (e: Option<Error>)
    requires i <= |tags|
    ensures e.None? ==> forall j :: i <= j < |tags| ==> tags[j].address.Success?
    decreases |tags| - i
  {
    if i == |tags| then None
    else if tags[i].address.Failure? then Some(tags[i].address.error) else FirstBadAddress(tags, i + 1)
  }

  /** The parsed tags, in order. */
  ghost predicate ParsedAll(tags: seq<Tag>, parsed: seq<ParsedTag>, n: nat)
    requires n <= |tags|
  {
    |parsed| == n && forall i :: 0 <= i < n ==> tags[i].address.Success? && parsed[i] == Parsed(tags[i])
  }

  method ParseTags(tags: seq<Tag>) returns (r: Result<seq<ParsedTag>>)
    ensures var bad := FirstBadAddress(tags, 0);
            if bad.Some? then r == Failure(bad.value) else r.Success? && ParsedAll(tags, r.value, |tags|)
  {
    var parsed := [];
    for i := 0 to |tags|
      invariant ParsedAll(tags, parsed, i)
      invariant FirstBadAddress(tags, i) == FirstBadAddress(tags, 0)
    {
      if tags[i].address.Failure? {
        return Failure(tags[i].address.error);
      }
      parsed := parsed + [Parsed(tags[i])];
    }
    return Success(parsed);
  }

  lemma ParsedLength(tags: seq<Tag>, parsed: seq<ParsedTag>)
    requires ParsedAll(tags, parsed, |tags|)
    ensures |parsed| == |tags|
  {
  }

  /** Result i is the answer of tags[i] in the range that holds it. */
  ghost predicate AnsweredBy(dev: Device, ranges: seq<ByteRange>, p: ParsedTag, dp: DataPoint) {
    exists k :: 0 <= k < |ranges| && p in Placed(ranges[k]) && dp == Answer(dev, k, p)
  }

  /** readTagsOptimized: it fails with the first reason met, or result i belongs to tags[i] and holds what
      reading that tag alone gives, unless the item of the tag's own range failed. */
  method ReadTagsOptimized(dev: Device, tags: seq<Tag>, cfg: BatchConfig)
    returns (r: Result<seq<DataPoint>>, ghost parsed: seq<ParsedTag>, ghost layouts: seq<Layout>, ghost ranges: seq<ByteRange>)
    requires forall i, j :: 0 <= i < j < |tags| ==> tags[i].id != tags[j].id
    ensures FirstBadAddress(tags, 0).Some? ==> r == Failure(FirstBadAddress(tags, 0).value)
    ensures FirstBadAddress(tags, 0).None? ==>
              && ParsedAll(tags, parsed, |tags|) && LaysOutAll(layouts, parsed) && ranges == Merged(layouts, cfg, |layouts|)
              && (FirstError(dev, ranges, 0, 0).Some? ==> r == Failure(FirstError(dev, ranges, 0, 0).value))
              && (FirstError(dev, ranges, 0, 0).None? ==>
                    && r.Success? && |r.value| == |tags|
                    && forall i :: 0 <= i < |tags| ==> AnsweredBy(dev, ranges, parsed[i], r.value[i]))
  {
    parsed, layouts, ranges := [], [], [];
    var list := ParseTags(tags);
    if list.Failure? {
      r := Failure(list.error);
      return;
    }
    var built;
    built, layouts := BuildRanges(list.value, cfg);
    parsed, ranges := list.value, built;
    hide LaysOutAll, Merged, FirstError, FirstBadAddress, AllFit, AnsweredBy, Records, Spots, AllPlaced, ParsedAll;
    ParsedLength(tags, parsed);
    SpotsDistinct(tags, parsed, ranges);
    var read := ReadAllChunks(dev, built);
    if read.Failure? {
      r := Failure(read.error);
      return;
    }
    var results := Assemble(dev, tags, read.value, parsed, ranges);
    r := Success(results);
  }

  /** The recorded points in the order of the tags; none is missing. */
  method Assemble(dev: Device, tags: seq<Tag>, points: map<string, DataPoint>, ghost parsed: seq<ParsedTag>, ghost ranges: seq<ByteRange>)
    returns (results: seq<DataPoint>)
    requires ParsedAll(tags, parsed, |tags|) && multiset(AllPlaced(ranges)) == multiset(parsed)
    requires Records(dev, Spots(ranges, |ranges|), points)
    ensures |results| == |tags| == |parsed|
    ensures forall i :: 0 <= i < |tags| ==> AnsweredBy(dev, ranges, parsed[i], results[i])
  {
    hide AnsweredBy, Records, Spots, AllPlaced, ParsedAll;
    ParsedLength(tags, parsed);
    results := [];
    for i := 0 to |tags|
      invariant |results| == i
      invariant forall j :: 0 <= j < i ==> AnsweredBy(dev, ranges, parsed[j], results[j])
    {
      RecordedTag(dev, tags, parsed, ranges, points, i);
      results := results + [points[tags[i].id]];
    }
  }

  // ----- every tag has one spot -----

  ghost function SpotTags(spots: seq<Spot>): seq<ParsedTag> {
    seq(|spots|, i requires 0 <= i < |spots| => spots[i].tag)
  }

  lemma {:induction false} SpotsPlaced(ranges: seq<ByteRange>, n: nat)
    requires n <= |ranges|
    ensures SpotTags(Spots(ranges, n)) == AllPlaced(ranges[..n])
  {
    if n > 0 {
      SpotsPlaced(ranges, n - 1);
      PlacedNext(ranges, n - 1);
      SpotTagsTogether(Spots(ranges, n - 1), RangeSpots(ranges, n - 1));
      assert SpotTags(RangeSpots(ranges, n - 1)) == Placed(ranges[n - 1]);
    }
  }

  lemma SpotTagsTogether(a: seq<Spot>, b: seq<Spot>)
    ensures SpotTags(a + b) == SpotTags(a) + SpotTags(b)
  {
  }

  lemma PlacedNext(ranges: seq<ByteRange>, i: nat)
    requires i < |ranges|
    ensures AllPlaced(ranges[..i + 1]) == AllPlaced(ranges[..i]) + Placed(ranges[i])
  {
    assert ranges[..i + 1] == ranges[..i] + [ranges[i]];
    PlacedTogether(ranges[..i], [ranges[i]]);
    PlacedCons(ranges[i], []);
    assert [ranges[i]] + [] == [ranges[i]];
  }

  lemma {:induction false} SpotRange(ranges: seq<ByteRange>, n: nat, i: nat)
    requires n <= |ranges| && i < |Spots(ranges, n)|
    ensures var s := Spots(ranges, n)[i]; s.k < n && s.tag in Placed(ranges[s.k])
    decreases n
  {
    if i < |Spots(ranges, n - 1)| {
      SpotRange(ranges, n - 1, i);
    } else {
      var j := i - |Spots(ranges, n - 1)|;
      assert Spots(ranges, n)[i] == RangeSpots(ranges, n - 1)[j];
      assert Placed(ranges[n - 1])[j] == Spots(ranges, n)[i].tag;
    }
  }

  lemma {:induction false} RecordedTag(dev: Device, tags: seq<Tag>, parsed: seq<ParsedTag>, ranges: seq<ByteRange>, points: map<string, DataPoint>, i: nat)
    requires ParsedAll(tags, parsed, |tags|) && multiset(AllPlaced(ranges)) == multiset(parsed) && i < |tags|
    requires Records(dev, Spots(ranges, |ranges|), points)
    ensures tags[i].id in points && AnsweredBy(dev, ranges, parsed[i], points[tags[i].id])
  {
    hide Spots, Answer;
    var spots := Spots(ranges, |ranges|);
    SpotsPlaced(ranges, |ranges|);
    assert ranges[..|ranges|] == ranges;
    assert parsed[i] in multiset(parsed) && parsed[i] in multiset(AllPlaced(ranges));
    var j :| 0 <= j < |spots| && SpotTags(spots)[j] == parsed[i];
    SpotRange(ranges, |ranges|, j);
    assert Recorded(dev, spots[j], points);
  }

  /** Tags with distinct identifiers have spots with distinct identifiers. */
  lemma {:induction false} SpotsDistinct(tags: seq<Tag>, parsed: seq<ParsedTag>, ranges: seq<ByteRange>)
    requires ParsedAll(tags, parsed, |tags|) && multiset(AllPlaced(ranges)) == multiset(parsed)
    requires forall i, j :: 0 <= i < j < |tags| ==> tags[i].id != tags[j].id
    ensures DistinctIds(Spots(ranges, |ranges|))
  {
    SpotsPlaced(ranges, |ranges|);
    assert ranges[..|ranges|] == ranges;
    IdsOnce(parsed, AllPlaced(ranges));
    var spots := Spots(ranges, |ranges|);
    forall i, j | 0 <= i < j < |spots| ensures spots[i].tag.tag.id != spots[j].tag.tag.id {
      assert SpotTags(spots)[i] == spots[i].tag && SpotTags(spots)[j] == spots[j].tag;
    }
  }

  /** A permutation of tags with distinct identifiers has distinct identifiers. */
  lemma {:induction false} IdsOnce(a: seq<ParsedTag>, b: seq<ParsedTag>)
    requires multiset(a) == multiset(b) && forall i, j :: 0 <= i < j < |a| ==> a[i].tag.id != a[j].tag.id
    ensures forall i, j :: 0 <= i < j < |b| ==> b[i].tag.id != b[j].tag.id
  {
    forall i, j | 0 <= i < j < |b| ensures b[i].tag.id != b[j].tag.id {
      IdsDiffer(a, b, i, j);
    }
  }

  lemma {:induction false} IdsDiffer(a: seq<ParsedTag>, b: seq<ParsedTag>, i: nat, j: nat)
    requires multiset(a) == multiset(b) && i < j < |b|
    requires forall x, y :: 0 <= x < y < |a| ==> a[x].tag.id != a[y].tag.id
    ensures b[i].tag.id != b[j].tag.id
  {
    var x := PlaceOf(a, b, i);
    var y := PlaceOf(a, b, j);
    if x == y {
      Twice(b, i, j);
      OnlyOnce(a, x);
    }
  }

  lemma PlaceOf(a: seq<ParsedTag>, b: seq<ParsedTag>, i: nat) returns (x: nat)
    requires multiset(a) == multiset(b) && i < |b|
    ensures x < |a| && a[x] == b[i]
  {
    assert b[i] in multiset(b) && b[i] in multiset(a);
    x :| 0 <= x < |a| && a[x] == b[i];
  }

  lemma Twice(b: seq<ParsedTag>, i: nat, j: nat)
    requires i < j < |b| && b[i] == b[j]
    ensures multiset(b)[b[i]] >= 2
  {
    assert b == b[..i] + [b[i]] + b[i + 1..j] + [b[j]] + b[j + 1..];
  }

  lemma {:induction false} OnlyOnce(a: seq<ParsedTag>, x: nat)
    requires x < |a| && forall i, j :: 0 <= i < j < |a| ==> a[i].tag.id != a[j].tag.id
    ensures multiset(a)[a[x]] == 1
  {
    assert a == a[..x] + [a[x]] + a[x + 1..];
    assert a[x] !in a[..x] && a[x] !in a[x + 1..];
  }
}
