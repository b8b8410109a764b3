/** ReadTags: from a list of tags to one data point per tag, through groups and ranges. */
module ModbusReadTags {
  import opened Domain
  import opened ModbusConversion
  import opened ModbusRanges
  import opened ModbusCoils
  import opened ModbusClient
  import opened SharedBuffer
  import opened Bytes
  import opened Sorting
  import opened Grouping

  // ----- what is answered, request by request -----

  function ErrorPoints(tags: seq<Tag>, e: Error): (points: seq<DataPoint>)
    ensures |points| == |tags| && forall i :: 0 <= i < |tags| ==> points[i].tagId == tags[i].id && points[i].outcome == Failure(e)
  {
    seq(|tags|, i requires 0 <= i < |tags| => DataPoint(tags[i].id, Failure(e)))
  }

  /** Why the one request for range k of a group fails, if it does. */
  function RequestError(dev: Device, rt: RegisterType, k: nat, rng: RegisterRange): Option<Error> {
    if !dev.attached(rt, k) then Some(ConnectionClosed)
    else if rt.OtherRegister? then Some(InvalidRegisterType)
    else
      var reply := dev.reply(rt, k, rng.start, RangeSize(rng));
      if reply.Failure? then Some(reply.error) else None
  }

  /** What tag i of a range gets from the reply; the dummy stands for a decoder panic. */
  ghost function DecodedPoint(bytes: seq<byte>, rt: RegisterType, rng: RegisterRange, i: nat): DataPoint
    requires i < |rng.tags|
  {
    if IsBitType(rt) then CoilPoint(bytes, rng, i)
    else if Safe(rng.tags[i]) then RegisterPoint(bytes, rng, i)
    else DataPoint(rng.tags[i].id, Failure(InvalidDataLength))
  }

  ghost function RangePoints(dev: Device, rt: RegisterType, k: nat, rng: RegisterRange): (points: seq<DataPoint>)
    ensures |points| == |rng.tags|
  {
    var error := RequestError(dev, rt, k, rng);
    if error.Some? then ErrorPoints(rng.tags, error.value)
    else
      var bytes := dev.reply(rt, k, rng.start, RangeSize(rng)).value;
      seq(|rng.tags|, i requires 0 <= i < |rng.tags| => DecodedPoint(bytes, rt, rng, i))
  }

  /** The points of the first n ranges of a group. */
  ghost function PointsOf(dev: Device, rt: RegisterType, ranges: seq<RegisterRange>, n: nat): seq<DataPoint>
    requires n <= |ranges|
  {
    if n == 0 then [] else PointsOf(dev, rt, ranges, n - 1) + RangePoints(dev, rt, n - 1, ranges[n - 1])
  }

  predicate Stopped(dev: Device, rt: RegisterType, n: nat) { exists k :: 0 <= k < n && dev.cancelled(rt, k) }

  /** The points of a group: an error for every tag if the context was found done before one of its
      ranges, what each range gives otherwise. */
  ghost function GroupAnswer(dev: Device, rt: RegisterType, tags: seq<Tag>): seq<DataPoint> {
    var ranges := RangesOf(tags, DefaultBatch(rt));
    if Stopped(dev, rt, |ranges|) then ErrorPoints(tags, Cancelled) else PointsOf(dev, rt, ranges, |ranges|)
  }

  function TypeOf(tag: Tag): RegisterType { tag.registerType }

  function GroupOf(tags: seq<Tag>, rt: RegisterType): seq<Tag> { OfKey(tags, |tags|, TypeOf, rt) }

  /** The points of the groups of the first n types. */
  ghost function Answers(dev: Device, tags: seq<Tag>, types: seq<RegisterType>, n: nat): seq<DataPoint>
    requires n <= |types|
  {
    if n == 0 then [] else Answers(dev, tags, types, n - 1) + GroupAnswer(dev, types[n - 1], GroupOf(tags, types[n - 1]))
  }

  /** The register types of the tags, each once. */
  ghost predicate Enumerates(types: seq<RegisterType>, tags: seq<Tag>) {
    && (forall i, j :: 0 <= i < j < |types| ==> types[i] != types[j])
    && forall rt :: rt in types <==> GroupOf(tags, rt) != []
  }

  // ----- the methods -----

  method ReadRange(dev: Device, rt: RegisterType, k: nat, rng: RegisterRange) returns (points: seq<DataPoint>)
    requires forall t :: t in rng.tags ==> Safe(t)
    ensures points == RangePoints(dev, rt, k, rng)
  {
    var r;
    if IsBitType(rt) {
      r := ReadCoilRange(dev, k, rng, rt);
    } else {
      r := ReadRegisterRange(dev, k, rng, rt);
    }
    points := if r.Failure? then ErrorPoints(rng.tags, r.error) else r.value;
    assert |points| == |RangePoints(dev, rt, k, rng)|;
    forall i | 0 <= i < |points| ensures points[i] == RangePoints(dev, rt, k, rng)[i] {
      assert rng.tags[i] in rng.tags;
    }
  }

  method ReadTagGroup(dev: Device, tags: seq<Tag>, rt: RegisterType) returns (r: Result<seq<DataPoint>>)
    requires forall t :: t in tags ==> Safe(t)
    ensures var ranges := RangesOf(tags, DefaultBatch(rt));
            r == if Stopped(dev, rt, |ranges|) then Failure(Cancelled) else Success(PointsOf(dev, rt, ranges, |ranges|))
    ensures r == Failure(Cancelled) <==> exists k :: 0 <= k < |RangesOf(tags, DefaultBatch(rt))| && dev.cancelled(rt, k)
    ensures r.Failure? ==> r.error == Cancelled
  {
    hide RangesOf, RangePoints;
    var ranges := BuildRanges(tags, DefaultBatch(rt));
    var points := [];
    for k := 0 to |ranges|
      invariant points == PointsOf(dev, rt, ranges, k) && !Stopped(dev, rt, k)
    {
      assert Stopped(dev, rt, k + 1) <==> dev.cancelled(rt, k);
      if dev.cancelled(rt, k) {
        assert Stopped(dev, rt, |ranges|);
        return Failure(Cancelled);
      }
      RangeTagsSafe(tags, DefaultBatch(rt), k);
      var more := ReadRange(dev, rt, k, ranges[k]);
      points := points + more;
    }
    r := Success(points);
  }

  method ReadGroup(dev: Device, tags: seq<Tag>, rt: RegisterType) returns (points: seq<DataPoint>)
    requires forall t :: t in tags ==> Safe(t)
    ensures points == GroupAnswer(dev, rt, tags)
  {
    var r := ReadTagGroup(dev, tags, rt);
    points := if r.Failure? then ErrorPoints(tags, r.error) else r.value;
  }

  /** The groups are taken in any order; each tag gets exactly what the request for its range gives.
      For validated tags of a group that leave each other's bytes alone that is what reading the
      tag alone gives, or the error of that very request. */
  method ReadTags(dev: Device, tags: seq<Tag>, ghost mem: Memory)
    returns (points: seq<DataPoint>, ghost types: seq<RegisterType>)
    requires forall t :: t in tags ==> Safe(t)
    ensures Enumerates(types, tags) && points == Answers(dev, tags, types, |types|)
    ensures forall t :: t in tags ==> t.registerType in types && t in GroupOf(tags, t.registerType)
    ensures forall rt :: rt in types ==> forall t :: t in GroupOf(tags, rt) ==> t in tags && t.registerType == rt
    ensures multiset(PointIds(points)) == multiset(TagIds(tags))
    ensures Serves(dev, mem) ==> forall rt :: rt in types && GroupOk(GroupOf(tags, rt), rt) ==>
              GroupAnswer(dev, rt, GroupOf(tags, rt)) == GroupAlone(dev, mem, rt, GroupOf(tags, rt))
  {
    hide GroupAnswer, GroupAlone, GroupOk;
    var groups := GroupBy(tags, TypeOf);
    points, types := [], [];
    var todo := groups.Keys;
    while todo != {}
      invariant Listed(types, groups.Keys, todo)
      invariant points == Answers(dev, tags, types, |types|)
      decreases todo
    {
      var rt :| rt in todo;
      GroupMembers(tags, TypeOf, rt);
      var more := ReadGroup(dev, groups[rt], rt);
      AnswersNext(dev, tags, types, rt);
      ListOne(types, groups.Keys, todo, rt);
      points, types, todo := points + more, types + [rt], todo - {rt};
    }
    AllListed(types, groups.Keys, tags);
    GroupsByType(tags, types);
    AnswersCarryIds(dev, tags, types);
    if Serves(dev, mem) {
      forall rt | rt in types && GroupOk(GroupOf(tags, rt), rt)
        ensures GroupAnswer(dev, rt, GroupOf(tags, rt)) == GroupAlone(dev, mem, rt, GroupOf(tags, rt))
      {
        GroupReadsAreExact(dev, mem, rt, GroupOf(tags, rt));
      }
    }
  }

  /** The types taken so far, each once. */
  ghost predicate Listed(types: seq<RegisterType>, keys: set<RegisterType>, todo: set<RegisterType>) {
    && todo <= keys && (forall i, j :: 0 <= i < j < |types| ==> types[i] != types[j])
    && forall rt :: rt in types <==> rt in keys && rt !in todo
  }

  lemma ListOne(types: seq<RegisterType>, keys: set<RegisterType>, todo: set<RegisterType>, rt: RegisterType)
    requires Listed(types, keys, todo) && rt in todo
    ensures Listed(types + [rt], keys, todo - {rt})
  {
  }

  lemma AllListed(types: seq<RegisterType>, keys: set<RegisterType>, tags: seq<Tag>)
    requires Listed(types, keys, {}) && forall rt :: rt in keys <==> OfKey(tags, |tags|, TypeOf, rt) != []
    ensures Enumerates(types, tags)
  {
  }

  lemma {:induction false} AnswersExtend(dev: Device, tags: seq<Tag>, types: seq<RegisterType>, rt: RegisterType, n: nat)
    requires n <= |types|
    ensures Answers(dev, tags, types + [rt], n) == Answers(dev, tags, types, n)
  {
    hide GroupAnswer, GroupOf;
    if n > 0 {
      assert (types + [rt])[n - 1] == types[n - 1];
      AnswersExtend(dev, tags, types, rt, n - 1);
    }
  }

  lemma AnswersNext(dev: Device, tags: seq<Tag>, types: seq<RegisterType>, rt: RegisterType)
    ensures Answers(dev, tags, types + [rt], |types| + 1) ==
            Answers(dev, tags, types, |types|) + GroupAnswer(dev, rt, GroupOf(tags, rt))
  {
    AnswersExtend(dev, tags, types, rt, |types|);
  }

  /** The groups are those of equal register type. */
  lemma GroupsByType(tags: seq<Tag>, types: seq<RegisterType>)
    requires Enumerates(types, tags)
    ensures forall t :: t in tags ==> t.registerType in types && t in GroupOf(tags, t.registerType)
    ensures forall rt :: rt in types ==> forall t :: t in GroupOf(tags, rt) ==> t in tags && t.registerType == rt
  {
    forall t | t in tags ensures t.registerType in types && t in GroupOf(tags, t.registerType) {
      var i :| 0 <= i < |tags| && tags[i] == t;
      GroupHolds(tags, |tags|, TypeOf, i);
    }
    forall rt | rt in types ensures forall t :: t in GroupOf(tags, rt) ==> t in tags && t.registerType == rt {
      GroupMembers(tags, TypeOf, rt);
    }
  }

  // ----- the ranges hold the tags -----

  lemma {:induction false} FlattenNext(ranges: seq<RegisterRange>, k: nat)
    requires k < |ranges|
    ensures Flatten(ranges[..k + 1]) == Flatten(ranges[..k]) + ranges[k].tags
    decreases k
  {
    if k > 0 {
      FlattenNext(ranges[1..], k - 1);
      assert ranges[..k + 1][1..] == ranges[1..][..k] && ranges[..k][1..] == ranges[1..][..k - 1];
    } else {
      assert ranges[..1] == [ranges[0]] && ranges[..0] == [];
      assert Flatten([ranges[0]]) == ranges[0].tags + Flatten([]) by { assert [ranges[0]][1..] == []; }
    }
  }

  lemma {:induction false} RangeAmongAll(ranges: seq<RegisterRange>, k: nat)
    requires k < |ranges|
    ensures multiset(ranges[k].tags) <= multiset(Flatten(ranges))
  {
    if k > 0 {
      RangeAmongAll(ranges[1..], k - 1);
    }
  }

  lemma RangeTags(tags: seq<Tag>, cfg: BatchConfig, k: nat)
    requires k < |RangesOf(tags, cfg)|
    ensures multiset(RangesOf(tags, cfg)[k].tags) <= multiset(tags)
    ensures forall t :: t in RangesOf(tags, cfg)[k].tags ==> t in tags
  {
    var ranges := RangesOf(tags, cfg);
    RangesHoldTags(tags, cfg);
    RangeAmongAll(ranges, k);
    forall t | t in ranges[k].tags ensures t in tags {
      assert t in multiset(ranges[k].tags) && t in multiset(tags);
    }
  }

  lemma RangeTagsSafe(tags: seq<Tag>, cfg: BatchConfig, k: nat)
    requires k < |RangesOf(tags, cfg)| && forall t :: t in tags ==> Safe(t)
    ensures forall t :: t in RangesOf(tags, cfg)[k].tags ==> Safe(t)
  {
    RangeTags(tags, cfg, k);
  }

  // ----- every tag gets one point -----

  function PointIds(points: seq<DataPoint>): seq<string> {
    seq(|points|, i requires 0 <= i < |points| => points[i].tagId)
  }

  function TagIds(tags: seq<Tag>): seq<string> {
    seq(|tags|, i requires 0 <= i < |tags| => tags[i].id)
  }

  lemma {:induction false} PointsCarryIds(dev: Device, rt: RegisterType, ranges: seq<RegisterRange>, n: nat)
    requires n <= |ranges|
    ensures PointIds(PointsOf(dev, rt, ranges, n)) == TagIds(Flatten(ranges[..n]))
  {
    if n > 0 {
      PointsCarryIds(dev, rt, ranges, n - 1);
      FlattenNext(ranges, n - 1);
      RangeIds(dev, rt, n - 1, ranges[n - 1]);
      IdsTogether(PointsOf(dev, rt, ranges, n - 1), RangePoints(dev, rt, n - 1, ranges[n - 1]),
                  Flatten(ranges[..n - 1]), ranges[n - 1].tags);
    }
  }

  lemma RangeIds(dev: Device, rt: RegisterType, k: nat, rng: RegisterRange)
    ensures PointIds(RangePoints(dev, rt, k, rng)) == TagIds(rng.tags)
  {
    var points := RangePoints(dev, rt, k, rng);
    forall i | 0 <= i < |points| ensures points[i].tagId == rng.tags[i].id {
    }
  }

  lemma IdsTogether(points: seq<DataPoint>, points': seq<DataPoint>, tags: seq<Tag>, tags': seq<Tag>)
    requires PointIds(points) == TagIds(tags) && PointIds(points') == TagIds(tags')
    ensures PointIds(points + points') == TagIds(tags + tags')
  {
    assert PointIds(points + points') == PointIds(points) + PointIds(points');
    assert TagIds(tags + tags') == TagIds(tags) + TagIds(tags');
  }

  lemma GroupCarriesIds(dev: Device, rt: RegisterType, tags: seq<Tag>)
    ensures multiset(PointIds(GroupAnswer(dev, rt, tags))) == multiset(TagIds(tags))
  {
    var ranges := RangesOf(tags, DefaultBatch(rt));
    if Stopped(dev, rt, |ranges|) {
      assert PointIds(ErrorPoints(tags, Cancelled)) == TagIds(tags);
    } else {
      PointsCarryIds(dev, rt, ranges, |ranges|);
      assert ranges[..|ranges|] == ranges;
      RangesHoldTags(tags, DefaultBatch(rt));
      SameIds(SortedTags(tags), tags);
    }
  }

  /** Tags in another order have their identifiers in another order. */
  lemma {:induction false} SameIds(a: seq<Tag>, b: seq<Tag>)
    requires multiset(a) == multiset(b)
    ensures multiset(TagIds(a)) == multiset(TagIds(b))
    decreases |a|
  {
    hide TagIds;
    assert |a| == |multiset(a)| == |b|;
    if a != [] {
      assert a[0] in multiset(a) && a[0] in multiset(b);
      var k :| 0 <= k < |b| && b[k] == a[0];
      WithoutOne(a, 0);
      WithoutOne(b, k);
      SameIds(a[..0] + a[1..], b[..k] + b[k + 1..]);
      IdsOfParts(a[..0], a[0], a[1..]);
      IdsOfParts(b[..k], b[k], b[k + 1..]);
    }
  }

  lemma WithoutOne(s: seq<Tag>, k: nat)
    requires k < |s|
    ensures multiset(s[..k] + s[k + 1..]) == multiset(s) - multiset{s[k]}
    ensures s == s[..k] + [s[k]] + s[k + 1..]
  {
    assert s == s[..k] + [s[k]] + s[k + 1..];
  }

  lemma IdsOfParts(front: seq<Tag>, t: Tag, back: seq<Tag>)
    ensures multiset(TagIds(front + [t] + back)) == multiset(TagIds(front + back)) + multiset{t.id}
  {
    assert TagIds(front + [t] + back) == TagIds(front) + [t.id] + TagIds(back);
    assert TagIds(front + back) == TagIds(front) + TagIds(back);
  }

  /** The groups of the first n types, one after the other. */
  ghost function Taken(tags: seq<Tag>, types: seq<RegisterType>, n: nat): seq<Tag>
    requires n <= |types|
  {
    if n == 0 then [] else Taken(tags, types, n - 1) + GroupOf(tags, types[n - 1])
  }

  ghost function FirstTypes(types: seq<RegisterType>, n: nat): set<RegisterType>
    requires n <= |types|
  {
    if n == 0 then {} else FirstTypes(types, n - 1) + {types[n - 1]}
  }

  lemma {:induction false} FirstTypesAre(types: seq<RegisterType>, n: nat, rt: RegisterType)
    requires n <= |types|
    ensures rt in FirstTypes(types, n) <==> exists i :: 0 <= i < n && types[i] == rt
  {
    if n > 0 {
      FirstTypesAre(types, n - 1, rt);
    }
  }

  lemma {:induction false} TakenElements(tags: seq<Tag>, types: seq<RegisterType>, n: nat)
    requires n <= |types| && forall i, j :: 0 <= i < j < |types| ==> types[i] != types[j]
    ensures multiset(Taken(tags, types, n)) == OfKeys(tags, |tags|, TypeOf, FirstTypes(types, n))
  {
    if n == 0 {
      NoKeys(tags, |tags|, TypeOf);
    } else {
      TakenElements(tags, types, n - 1);
      FirstTypesAre(types, n - 1, types[n - 1]);
      OneMoreKey(tags, |tags|, TypeOf, FirstTypes(types, n - 1), types[n - 1]);
    }
  }

  lemma {:induction false} AnswersCarryTaken(dev: Device, tags: seq<Tag>, types: seq<RegisterType>, n: nat)
    requires n <= |types|
    ensures multiset(PointIds(Answers(dev, tags, types, n))) == multiset(TagIds(Taken(tags, types, n)))
  {
    hide GroupAnswer, GroupOf, PointIds, TagIds;
    if n > 0 {
      var group := GroupOf(tags, types[n - 1]);
      AnswersCarryTaken(dev, tags, types, n - 1);
      GroupCarriesIds(dev, types[n - 1], group);
      AllPointIds(Answers(dev, tags, types, n - 1), GroupAnswer(dev, types[n - 1], group));
      AllTagIds(Taken(tags, types, n - 1), group);
    } else {
      NoIds();
    }
  }

  lemma NoIds()
    ensures PointIds([]) == TagIds([])
  {
  }

  lemma AllPointIds(a: seq<DataPoint>, b: seq<DataPoint>)
    ensures multiset(PointIds(a + b)) == multiset(PointIds(a)) + multiset(PointIds(b))
  {
    assert PointIds(a + b) == PointIds(a) + PointIds(b);
  }

  lemma AllTagIds(a: seq<Tag>, b: seq<Tag>)
    ensures multiset(TagIds(a + b)) == multiset(TagIds(a)) + multiset(TagIds(b))
  {
    assert TagIds(a + b) == TagIds(a) + TagIds(b);
  }

  lemma AnswersCarryIds(dev: Device, tags: seq<Tag>, types: seq<RegisterType>)
    requires Enumerates(types, tags)
    ensures multiset(PointIds(Answers(dev, tags, types, |types|))) == multiset(TagIds(tags))
  {
    var n := |types|;
    AnswersCarryTaken(dev, tags, types, n);
    TakenElements(tags, types, n);
    forall rt | OfKey(tags, |tags|, TypeOf, rt) != [] ensures rt in FirstTypes(types, n) {
      assert GroupOf(tags, rt) != [] && rt in types;
      FirstTypesAre(types, n, rt);
    }
    AllGrouped(tags, TypeOf, FirstTypes(types, n));
    SameIds(Taken(tags, types, n), tags);
  }

  // ----- against reading each tag alone -----

  /** What reading a tag alone means: the coil at its address, or its own registers decoded. */
  lemma AloneMeans(mem: Memory, tag: Tag) returns (own: seq<byte>)
    requires Decodable(tag) || IsBitType(tag.registerType)
    ensures |own| == 2 * tag.count && forall j :: 0 <= j < |own| ==> own[j] == mem.byteAt(tag.registerType, 2 * tag.address + j)
    ensures ReadAlone(mem, tag) ==
            if tag.registerType == Coil || tag.registerType == DiscreteInput
            then Success(BoolValue(mem.coilAt(tag.registerType, tag.address))) else ParseValue(own, tag)
  {
    own := RegisterBytes(mem, tag.registerType, tag.address, tag.count);
  }

  /** A reply too short for a tag gives an error instead of another tag's data. */
  lemma ShortReplies(bytes: seq<byte>, rng: RegisterRange, i: nat)
    requires i < |rng.tags| && rng.start <= rng.tags[i].address && Safe(rng.tags[i])
    ensures |bytes| < 2 * (rng.tags[i].address - rng.start + rng.tags[i].count) ==>
              RegisterPoint(bytes, rng, i) == DataPoint(rng.tags[i].id, Failure(InvalidDataLength))
    ensures |bytes| <= (rng.tags[i].address - rng.start) / 8 ==>
              CoilPoint(bytes, rng, i) == DataPoint(rng.tags[i].id, Failure(InvalidDataLength))
  {
  }

  /** Tag i of range k read on its own, or the error of the request that was made for the range. */
  ghost function AlonePoint(dev: Device, mem: Memory, rt: RegisterType, k: nat, rng: RegisterRange, i: nat): DataPoint
    requires i < |rng.tags|
  {
    var error, tag := RequestError(dev, rt, k, rng), rng.tags[i];
    DataPoint(tag.id,
      if error.Some? then Failure(error.value)
      else if Decodable(tag) || IsBitType(tag.registerType) then ReadAlone(mem, tag)
      else Failure(InvalidDataLength))
  }

  ghost function RangeAlone(dev: Device, mem: Memory, rt: RegisterType, k: nat, rng: RegisterRange): (points: seq<DataPoint>)
    ensures |points| == |rng.tags|
  {
    seq(|rng.tags|, i requires 0 <= i < |rng.tags| => AlonePoint(dev, mem, rt, k, rng, i))
  }

  ghost function AllAlone(dev: Device, mem: Memory, rt: RegisterType, ranges: seq<RegisterRange>, n: nat): seq<DataPoint>
    requires n <= |ranges|
  {
    if n == 0 then [] else AllAlone(dev, mem, rt, ranges, n - 1) + RangeAlone(dev, mem, rt, n - 1, ranges[n - 1])
  }

  ghost function GroupAlone(dev: Device, mem: Memory, rt: RegisterType, tags: seq<Tag>): seq<DataPoint> {
    var ranges := RangesOf(tags, DefaultBatch(rt));
    if Stopped(dev, rt, |ranges|) then ErrorPoints(tags, Cancelled) else AllAlone(dev, mem, rt, ranges, |ranges|)
  }

  /** The tags passed validation. */
  ghost predicate Validated(tags: seq<Tag>, rt: RegisterType) {
    AllWithin(tags, rt) && forall t :: t in tags ==> Decodable(t) || IsBitType(rt)
  }

  /** Validated tags, of which none moves bytes that a later one of its range reads. Bits are never moved. */
  ghost predicate GroupOk(tags: seq<Tag>, rt: RegisterType) {
    && Validated(tags, rt)
    && (IsBitType(rt) || forall k :: 0 <= k < |RangesOf(tags, DefaultBatch(rt))| ==>
          Undisturbed(Windows(RangesOf(tags, DefaultBatch(rt))[k])))
  }

  lemma RangeIsHull(tags: seq<Tag>, rt: RegisterType, k: nat)
    requires Validated(tags, rt) && k < |RangesOf(tags, DefaultBatch(rt))|
    ensures var rng := RangesOf(tags, DefaultBatch(rt))[k];
            ExactHull(rng, rt) && AllWithin(rng.tags, rt) && (IsBitType(rt) || RegisterHull(rng, rt))
  {
    var ranges := RangesOf(tags, DefaultBatch(rt));
    GroupRanges(tags, rt);
    assert ranges[k] in ranges;
    RangeTags(tags, DefaultBatch(rt), k);
  }

  /** Tag by tag: if the tags of its range before it left its bytes in their places, a validated tag gets
      exactly what reading it alone gives, or the error of its range's request. */
  lemma TagReadIsExact(dev: Device, mem: Memory, rt: RegisterType, tags: seq<Tag>, k: nat, i: nat)
    requires Validated(tags, rt) && Serves(dev, mem) && k < |RangesOf(tags, DefaultBatch(rt))|
    requires var rng := RangesOf(tags, DefaultBatch(rt))[k];
             i < |rng.tags| && (IsBitType(rt) || OwnPlaces(Windows(rng), i))
    ensures var rng := RangesOf(tags, DefaultBatch(rt))[k];
            RangePoints(dev, rt, k, rng)[i] == AlonePoint(dev, mem, rt, k, rng, i)
  {
    RangeIsHull(tags, rt, k);
    var rng := RangesOf(tags, DefaultBatch(rt))[k];
    hide RangesOf, OwnPlaces;
    if RequestError(dev, rt, k, rng).None? {
      assert Truthful(dev, mem, rt, k, rng.start, RangeSize(rng));
      assert rng.tags[i] in rng.tags;
      RepliedPoint(mem, rt, rng, i, dev.reply(rt, k, rng.start, RangeSize(rng)).value);
    }
  }

  lemma RepliedPoint(mem: Memory, rt: RegisterType, rng: RegisterRange, i: nat, bytes: seq<byte>)
    requires ExactHull(rng, rt) && AllWithin(rng.tags, rt) && i < |rng.tags|
    requires IsBitType(rt) || (RegisterHull(rng, rt) && OwnPlaces(Windows(rng), i))
    requires if IsBitType(rt) then IsPacked(bytes, Coils(mem, rt, rng.start, rng.end - rng.start + 1))
             else bytes == RegisterBytes(mem, rt, rng.start, rng.end - rng.start + 1)
    ensures rng.tags[i].registerType == rt && (IsBitType(rt) || Decodable(rng.tags[i]))
    ensures DecodedPoint(bytes, rt, rng, i) == DataPoint(rng.tags[i].id, ReadAlone(mem, rng.tags[i]))
  {
    assert rng.tags[i] in rng.tags;
    if IsBitType(rt) {
      CoilRangeRefinesAlone(mem, bytes, rng, rt, i);
    } else {
      RangeRefinesAlone(mem, rng, rt, i);
    }
  }

  /** A group whose tags are validated and leave each other's bytes alone is read exactly. */
  lemma GroupReadsAreExact(dev: Device, mem: Memory, rt: RegisterType, tags: seq<Tag>)
    requires GroupOk(tags, rt) && Serves(dev, mem)
    ensures GroupAnswer(dev, rt, tags) == GroupAlone(dev, mem, rt, tags)
  {
    RangesReadExactly(dev, mem, rt, tags, |RangesOf(tags, DefaultBatch(rt))|);
  }

  lemma {:induction false} RangesReadExactly(dev: Device, mem: Memory, rt: RegisterType, tags: seq<Tag>, n: nat)
    requires GroupOk(tags, rt) && Serves(dev, mem) && n <= |RangesOf(tags, DefaultBatch(rt))|
    ensures var ranges := RangesOf(tags, DefaultBatch(rt));
            PointsOf(dev, rt, ranges, n) == AllAlone(dev, mem, rt, ranges, n)
  {
    hide RangePoints, AlonePoint, Serves, Validated, RangesOf, Undisturbed;
    var ranges := RangesOf(tags, DefaultBatch(rt));
    if n > 0 {
      RangesReadExactly(dev, mem, rt, tags, n - 1);
      var rng := ranges[n - 1];
      assert IsBitType(rt) || Undisturbed(Windows(rng));
      if !IsBitType(rt) {
        OwnPlacesExactly(Windows(rng));
      }
      var batched, alone := RangePoints(dev, rt, n - 1, rng), RangeAlone(dev, mem, rt, n - 1, rng);
      forall i | 0 <= i < |rng.tags| ensures batched[i] == alone[i] {
        TagReadIsExact(dev, mem, rt, tags, n - 1, i);
      }
      assert batched == alone;
    }
  }

  /** Every request that the group needs is made and succeeds. */
  ghost predicate Quiet(dev: Device, rt: RegisterType, tags: seq<Tag>) {
    forall k :: 0 <= k < |RangesOf(tags, DefaultBatch(rt))| ==> Succeeds(dev, rt, k, RangesOf(tags, DefaultBatch(rt))[k])
  }

  predicate Succeeds(dev: Device, rt: RegisterType, k: nat, rng: RegisterRange) {
    !dev.cancelled(rt, k) && RequestError(dev, rt, k, rng) == None
  }

  function AloneAt(mem: Memory, tag: Tag): DataPoint {
    DataPoint(tag.id, if Decodable(tag) || IsBitType(tag.registerType) then ReadAlone(mem, tag) else Failure(InvalidDataLength))
  }

  function EachAlone(mem: Memory, tags: seq<Tag>): seq<DataPoint> {
    seq(|tags|, i requires 0 <= i < |tags| => AloneAt(mem, tags[i]))
  }

  /** If the group's own requests succeed, its points are the tags in sorted order, each read alone. */
  lemma QuietReadsAreExact(dev: Device, mem: Memory, rt: RegisterType, tags: seq<Tag>)
    requires GroupOk(tags, rt) && Serves(dev, mem) && Quiet(dev, rt, tags)
    ensures GroupAnswer(dev, rt, tags) == EachAlone(mem, SortedTags(tags))
  {
    var ranges := RangesOf(tags, DefaultBatch(rt));
    GroupReadsAreExact(dev, mem, rt, tags);
    assert !Stopped(dev, rt, |ranges|) by {
      forall k | 0 <= k < |ranges| ensures !dev.cancelled(rt, k) {
        assert Succeeds(dev, rt, k, ranges[k]);
      }
    }
    QuietRanges(dev, mem, rt, tags, |ranges|);
    assert ranges[..|ranges|] == ranges;
    RangesHoldTags(tags, DefaultBatch(rt));
  }

  lemma {:induction false} QuietRanges(dev: Device, mem: Memory, rt: RegisterType, tags: seq<Tag>, n: nat)
    requires Quiet(dev, rt, tags) && n <= |RangesOf(tags, DefaultBatch(rt))|
    ensures var ranges := RangesOf(tags, DefaultBatch(rt));
            AllAlone(dev, mem, rt, ranges, n) == EachAlone(mem, Flatten(ranges[..n]))
  {
    hide RangesOf, RequestError, AloneAt;
    var ranges := RangesOf(tags, DefaultBatch(rt));
    if n > 0 {
      QuietRanges(dev, mem, rt, tags, n - 1);
      FlattenNext(ranges, n - 1);
      var rng := ranges[n - 1];
      assert Succeeds(dev, rt, n - 1, rng);
      QuietRange(dev, mem, rt, n - 1, rng);
      AloneTogether(mem, Flatten(ranges[..n - 1]), rng.tags);
    }
  }

  lemma QuietRange(dev: Device, mem: Memory, rt: RegisterType, k: nat, rng: RegisterRange)
    requires RequestError(dev, rt, k, rng) == None
    ensures RangeAlone(dev, mem, rt, k, rng) == EachAlone(mem, rng.tags)
  {
  }

  lemma AloneTogether(mem: Memory, a: seq<Tag>, b: seq<Tag>)
    ensures EachAlone(mem, a + b) == EachAlone(mem, a) + EachAlone(mem, b)
  {
  }

  // ----- when batching is transparent -----

  ghost predicate GroupAgrees(mem: Memory, tags: seq<Tag>, rt: RegisterType)
    requires Validated(tags, rt) && !IsBitType(rt)
  {
    forall k :: 0 <= k < |RangesOf(tags, DefaultBatch(rt))| ==> RangeKAgrees(mem, tags, rt, k)
  }

  ghost predicate RangeKAgrees(mem: Memory, tags: seq<Tag>, rt: RegisterType, k: nat)
    requires Validated(tags, rt) && !IsBitType(rt) && k < |RangesOf(tags, DefaultBatch(rt))|
  {
    RangeIsHull(tags, rt, k);
    RangeAgrees(mem, RangesOf(tags, DefaultBatch(rt))[k], rt)
  }

  /** A condition on the list of tags alone: for numbers of exact width the batched values of a group are right
      for every memory if and only if the group is one whose tags leave each other's bytes alone. */
  lemma GroupAgreesExactly(tags: seq<Tag>, rt: RegisterType)
    requires Validated(tags, rt) && !IsBitType(rt) && NumberTags(tags)
    ensures (forall mem: Memory :: GroupAgrees(mem, tags, rt)) <==> GroupOk(tags, rt)
  {
    var ranges := RangesOf(tags, DefaultBatch(rt));
    forall k | 0 <= k < |ranges|
      ensures (forall mem: Memory :: RangeKAgrees(mem, tags, rt, k)) <==> Undisturbed(Windows(ranges[k]))
    {
      RangeIsHull(tags, rt, k);
      RangeTags(tags, DefaultBatch(rt), k);
      RangeAgreesExactly(ranges[k], rt);
      assert forall mem: Memory :: RangeKAgrees(mem, tags, rt, k) <==> RangeAgrees(mem, ranges[k], rt);
    }
    if !GroupOk(tags, rt) {
      var k :| 0 <= k < |ranges| && !Undisturbed(Windows(ranges[k]));
      var mem: Memory :| !RangeKAgrees(mem, tags, rt, k);
      assert !GroupAgrees(mem, tags, rt);
    }
  }

  ghost function TagWindow(tag: Tag): Window { Window(2 * tag.address, 2 * tag.count, tag.byteOrder) }

  /** No tag's byte order moves a byte that another one of the register tags reads. */
  ghost predicate Undisturbing(tags: multiset<Tag>) {
    forall t, u :: t in tags && u in tags && (t == u ==> tags[t] > 1) ==> !Disturbs(TagWindow(t), TagWindow(u))
  }

  /** Whatever ranges they end up in, such tags are read exactly. */
  lemma UndisturbingIsEnough(tags: seq<Tag>, rt: RegisterType)
    requires Validated(tags, rt) && (IsBitType(rt) || Undisturbing(multiset(tags)))
    ensures GroupOk(tags, rt)
  {
    var ranges := RangesOf(tags, DefaultBatch(rt));
    if !IsBitType(rt) {
      forall k | 0 <= k < |ranges| ensures Undisturbed(Windows(ranges[k])) {
        RangeIsHull(tags, rt, k);
        RangeTags(tags, DefaultBatch(rt), k);
        RangeUndisturbed(ranges[k], rt, multiset(tags));
      }
    }
  }

  /** Overlapping register tags that are all big-endian do not disturb each other. */
  lemma BigEndianOverlapsAreFine(tags: multiset<Tag>)
    requires forall t, u :: t in tags && u in tags && (t == u ==> tags[t] > 1) ==>
               (t.address < u.address + u.count && u.address < t.address + t.count ==> t.byteOrder == BigEndian)
    ensures Undisturbing(tags)
  {
  }

  /** Positions are relative to the start of the range, which changes nothing. */
  lemma RangeUndisturbed(rng: RegisterRange, rt: RegisterType, all: multiset<Tag>)
    requires ExactHull(rng, rt) && multiset(rng.tags) <= all && Undisturbing(all)
    ensures Undisturbed(Windows(rng))
  {
    forall i, j | 0 <= i < j < |rng.tags| ensures !Disturbs(Windows(rng)[i], Windows(rng)[j]) {
      var t, u := rng.tags[i], rng.tags[j];
      assert t in rng.tags && u in rng.tags;
      TwiceInSequence(rng.tags, i, j);
      assert t in multiset(rng.tags) && u in multiset(rng.tags);
      assert !Disturbs(TagWindow(t), TagWindow(u));
      ShiftedApart(Windows(rng)[i], Windows(rng)[j], TagWindow(t), TagWindow(u), 2 * rng.start);
    }
  }

  lemma ShiftedApart(w: Window, v: Window, w': Window, v': Window, shift: nat)
    requires w' == w.(off := w.off + shift) && v' == v.(off := v.off + shift) && !Disturbs(w', v')
    ensures !Disturbs(w, v)
  {
    forall p: nat | v.Inside(p) ensures !w.Moves(p) {
      assert v'.Inside(p + shift) && !w'.Moves(p + shift);
    }
  }

  lemma TwiceInSequence<T>(s: seq<T>, i: nat, j: nat)
    requires i < j < |s|
    ensures s[i] == s[j] ==> multiset(s)[s[i]] > 1
  {
    assert s == s[..i] + [s[i]] + s[i + 1..j] + [s[j]] + s[j + 1..];
  }

  // ----- the single-tag read path for coils -----

  /** What ReadTag decodes from the packed reply to its own request is the coil at its address. */
  ghost predicate SingleReadAgrees(mem: Memory, bytes: seq<byte>, tag: Tag)
    requires IsBitType(tag.registerType)
  {
    IsPacked(bytes, Coils(mem, tag.registerType, tag.address, tag.count)) ==>
      ParseValue(bytes, tag) == ReadAlone(mem, tag)
  }

  /** ReadTag agrees with the batched path on a bit tag, for every coil memory, exactly when the tag
      names bit 0 or has no bit position and covers one coil: without a bit position it reports
      whether any of the first eight coils is set. */
  lemma SingleCoilReadExactly(tag: Tag)
    requires IsBitType(tag.registerType) && WithinLimits(tag)
    ensures (forall mem: Memory, bytes: seq<byte> :: SingleReadAgrees(mem, bytes, tag))
            <==> (tag.bitPosition == Some(0) || (tag.bitPosition == None && tag.count == 1))
  {
    if tag.bitPosition == Some(0) || (tag.bitPosition == None && tag.count == 1) {
      forall mem: Memory, bytes: seq<byte> ensures SingleReadAgrees(mem, bytes, tag) {
        if IsPacked(bytes, Coils(mem, tag.registerType, tag.address, tag.count)) {
          FirstCoil(mem, bytes, tag);
        }
      }
    } else {
      var lit := if tag.bitPosition.Some? then 0 else 1;
      var mem := Memory((_, _) => 0, (_, a) => a == tag.address + lit);
      var bytes: seq<byte> := seq(PackedLength(tag.count), i => if i == 0 then 1 + lit else 0);
      OneCoilLit(bytes, Coils(mem, tag.registerType, tag.address, tag.count), lit);
      OneBit(lit, if tag.bitPosition.Some? then tag.bitPosition.value else 0);
      assert !SingleReadAgrees(mem, bytes, tag);
    }
  }

  lemma FirstCoil(mem: Memory, bytes: seq<byte>, tag: Tag)
    requires IsBitType(tag.registerType) && tag.count >= 1
    requires IsPacked(bytes, Coils(mem, tag.registerType, tag.address, tag.count))
    requires tag.bitPosition == Some(0) || (tag.bitPosition == None && tag.count == 1)
    ensures ParseValue(bytes, tag) == ReadAlone(mem, tag)
  {
    assert PackedBit(bytes, 0) == mem.coilAt(tag.registerType, tag.address);
    if tag.bitPosition == None && !PackedBit(bytes, 0) {
      forall k: nat | k < 8 ensures Bit(bytes[0], k) == Bit(0, k) {
        assert PackedBit(bytes, k) == false;
        NoBitsBeyondWidth(0, 0, k);
      }
      Pow2Of8();
      BitsDetermine(bytes[0], 0, 8);
    }
  }

  /** 1 and 2 are the bytes whose only set bits are bit 0 and bit 1. */
  lemma OneBit(lit: nat, k: nat)
    requires lit < 2
    ensures Bit(1 + lit, k) <==> k == lit
  {
    if k > lit {
      assert Pow2(1) == 2 && Pow2(2) == 4;
      NoBitsBeyondWidth(1 + lit, lit + 1, k);
    }
  }

  lemma OneCoilLit(bytes: seq<byte>, coils: seq<bool>, lit: nat)
    requires lit < 2 && lit < |coils| && |bytes| == PackedLength(|coils|)
    requires bytes[0] == 1 + lit && forall i :: 0 < i < |bytes| ==> bytes[i] == 0
    requires forall i :: 0 <= i < |coils| ==> (coils[i] <==> i == lit)
    ensures IsPacked(bytes, coils)
  {
    forall k: nat | k < 8 * |bytes| ensures PackedBit(bytes, k) <==> (k < |coils| && coils[k]) {
      OneBit(lit, k % 8);
      NoBitsBeyondWidth(0, 0, k % 8);
    }
  }
}
