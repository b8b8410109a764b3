/** Merging S7 tags of one area and data block into contiguous byte ranges. */
module S7Batch {
  import opened Domain
  import opened Merging
  import opened Sorting
  import opened Grouping

  const MAX_ITEMS := 20           // items per multi-read or multi-write request

  datatype Area = DB | Merker | Input | Output | Timer | Counter | OtherArea(name: string)

  datatype Address = Address(area: Area, db: int, offset: int, bit: nat)

  /** `address` is what parsing the tag's address gives. */
  datatype Tag = Tag(id: string, dataType: DataType, address: Result<Address>)

  datatype ParsedTag = ParsedTag(tag: Tag, at: Address, byteCount: nat)

  /** A tag's place relative to the start of its range. */
  datatype TagInRange = TagInRange(tag: Tag, offset: int, bit: nat, byteCount: nat)

  datatype ByteRange = ByteRange(area: Area, db: int, start: int, total: int, tags: seq<TagInRange>)

  datatype BatchConfig = BatchConfig(maxBytes: int, maxGap: int)

  datatype GroupKey = GroupKey(area: Area, db: int)

  function KeyOf(p: ParsedTag): GroupKey { GroupKey(p.at.area, p.at.db) }

  function OffsetOf(p: ParsedTag): int { p.at.offset }

  function Fresh(p: ParsedTag): ByteRange {
    ByteRange(p.at.area, p.at.db, p.at.offset, p.byteCount, [TagInRange(p.tag, 0, p.at.bit, p.byteCount)])
  }

  predicate Mergeable(cur: ByteRange, p: ParsedTag, cfg: BatchConfig) {
    var gap := p.at.offset - (cur.start + cur.total);
    var reach := p.at.offset + p.byteCount - cur.start;
    var newTotal := if reach < cur.total then cur.total else reach;
    gap <= cfg.maxGap && newTotal <= cfg.maxBytes
  }

  function Extended(cur: ByteRange, p: ParsedTag): ByteRange {
    var tagEnd := p.at.offset + p.byteCount;
    cur.(total := if tagEnd > cur.start + cur.total then tagEnd - cur.start else cur.total,
         tags := cur.tags + [TagInRange(p.tag, p.at.offset - cur.start, p.at.bit, p.byteCount)])
  }

  /** The ranges produced from the current one and the sorted tags still to come. */
  function MergeFrom(cur: ByteRange, rest: seq<ParsedTag>, cfg: BatchConfig): (ranges: seq<ByteRange>)
    ensures ranges != []
    decreases |rest|
  {
    if rest == [] then [cur]
    else if Mergeable(cur, rest[0], cfg) then MergeFrom(Extended(cur, rest[0]), rest[1..], cfg)
    else [cur] + MergeFrom(Fresh(rest[0]), rest[1..], cfg)
  }

  /** When the next tag joins the current range, in plain numbers, and what becomes of it. */
  lemma {:induction false} MergesExactly(cur: ByteRange, p: ParsedTag, rest: seq<ParsedTag>, cfg: BatchConfig)
    ensures var end, curEnd := p.at.offset + p.byteCount, cur.start + cur.total;
            var newEnd := if end > curEnd then end else curEnd;
            MergeFrom(cur, [p] + rest, cfg) ==
            if p.at.offset - curEnd <= cfg.maxGap && newEnd - cur.start <= cfg.maxBytes
            then MergeFrom(ByteRange(cur.area, cur.db, cur.start, newEnd - cur.start,
                                     cur.tags + [TagInRange(p.tag, p.at.offset - cur.start, p.at.bit, p.byteCount)]), rest, cfg)
            else [cur] + MergeFrom(ByteRange(p.at.area, p.at.db, p.at.offset, p.byteCount,
                                             [TagInRange(p.tag, 0, p.at.bit, p.byteCount)]), rest, cfg)
  {
    assert ([p] + rest)[1..] == rest;
    hide MergeFrom;
    MergeStep(cur, [p] + rest, 0, cfg);
    assert ([p] + rest)[0..] == [p] + rest;
  }

  /** Sorting one group by offset and merging it. */
  method MergeGroup(tags: seq<ParsedTag>, cfg: BatchConfig) returns (ranges: seq<ByteRange>, ghost sorted: seq<ParsedTag>)
    requires tags != []
    ensures multiset(sorted) == multiset(tags) && SortedBy(sorted, OffsetOf)
    ensures sorted != [] && ranges == MergeFrom(Fresh(sorted[0]), sorted[1..], cfg)
  {
    hide MergeFrom, Mergeable, Extended, Fresh, SortedBy;
    var list := SortTags(tags);
    sorted := list;
    assert |sorted| == |multiset(sorted)| == |multiset(tags)| == |tags|;
    ranges := [];
    var current := Fresh(list[0]);
    var i := 1;
    while i < |list|
      invariant 1 <= i <= |list|
      invariant ranges + MergeFrom(current, sorted[i..], cfg) == MergeFrom(Fresh(sorted[0]), sorted[1..], cfg)
    {
      MergeStep(current, sorted, i, cfg);
      if Mergeable(current, list[i], cfg) {
        current := Extended(current, list[i]);
      } else {
        Regroup(ranges, current, MergeFrom(Fresh(list[i]), list[i + 1..], cfg));
        ranges, current := ranges + [current], Fresh(list[i]);
      }
      i := i + 1;
    }
    MergeEnd(current, sorted, cfg);
    ranges := ranges + [current];
  }

  /** The library's sort is not stable, so no more than this is relied on. */
  method SortTags(tags: seq<ParsedTag>) returns (sorted: seq<ParsedTag>)
    ensures multiset(sorted) == multiset(tags) && SortedBy(sorted, OffsetOf)
  {
    var a := new ParsedTag[|tags|](i requires 0 <= i < |tags| => tags[i]);
    assert a[..] == tags;
    InsertionSort(a, OffsetOf);
    StableSortedIsSorted(tags, OffsetOf);
    sorted := a[..];
  }

  lemma MergeEnd(cur: ByteRange, all: seq<ParsedTag>, cfg: BatchConfig)
    ensures MergeFrom(cur, all[|all|..], cfg) == [cur]
  {
    assert all[|all|..] == [];
  }

  lemma MergeStep(cur: ByteRange, all: seq<ParsedTag>, k: nat, cfg: BatchConfig)
    requires k < |all|
    ensures MergeFrom(cur, all[k..], cfg) ==
            if Mergeable(cur, all[k], cfg) then MergeFrom(Extended(cur, all[k]), all[k + 1..], cfg)
            else [cur] + MergeFrom(Fresh(all[k]), all[k + 1..], cfg)
  {
    assert all[k..][1..] == all[k + 1..];
  }

  // ----- every tag keeps its address and fits its range -----

  /** The absolute address and size a place in the range stands for. */
  ghost function Absolute(r: ByteRange, t: TagInRange): ParsedTag {
    ParsedTag(t.tag, Address(r.area, r.db, r.start + t.offset, t.bit), t.byteCount)
  }

  ghost function Placed(r: ByteRange): (s: seq<ParsedTag>)
    ensures |s| == |r.tags|
  {
    seq(|r.tags|, i requires 0 <= i < |r.tags| => Absolute(r, r.tags[i]))
  }

  ghost function AllPlaced(ranges: seq<ByteRange>): seq<ParsedTag> {
    if ranges == [] then [] else Placed(ranges[0]) + AllPlaced(ranges[1..])
  }

  ghost predicate Fits(r: ByteRange) {
    r.tags != [] && forall i :: 0 <= i < |r.tags| ==> 0 <= r.tags[i].offset && r.tags[i].offset + r.tags[i].byteCount <= r.total
  }

  ghost predicate AllFit(ranges: seq<ByteRange>) {
    forall i :: 0 <= i < |ranges| ==> Fits(ranges[i])
  }

  lemma ExtendedPlaces(cur: ByteRange, p: ParsedTag)
    requires KeyOf(p) == GroupKey(cur.area, cur.db) && Fits(cur) && cur.start <= p.at.offset
    ensures Placed(Extended(cur, p)) == Placed(cur) + [p] && Fits(Extended(cur, p))
  {
  }

  /** The tags still to come belong to the range's group and start at or after it, in order. */
  ghost predicate Follows(cur: ByteRange, rest: seq<ParsedTag>) {
    && SortedBy(rest, OffsetOf)
    && forall i :: 0 <= i < |rest| ==> KeyOf(rest[i]) == GroupKey(cur.area, cur.db) && cur.start <= rest[i].at.offset
  }

  lemma FollowsOn(cur: ByteRange, rest: seq<ParsedTag>)
    requires rest != [] && Follows(cur, rest)
    ensures Follows(Extended(cur, rest[0]), rest[1..]) && Follows(Fresh(rest[0]), rest[1..])
  {
    forall i | 0 <= i < |rest[1..]| ensures rest[0].at.offset <= rest[1..][i].at.offset {
      assert OffsetOf(rest[0]) <= OffsetOf(rest[i + 1]);
    }
  }

  lemma PlacedCons(r: ByteRange, others: seq<ByteRange>)
    ensures AllPlaced([r] + others) == Placed(r) + AllPlaced(others)
  {
    assert ([r] + others)[1..] == others;
  }

  /** Merging a sorted group loses no tag, moves none, and leaves no tag outside its range. */
  lemma {:induction false} MergeKeepsTags(cur: ByteRange, rest: seq<ParsedTag>, cfg: BatchConfig)
    requires Fits(cur) && Follows(cur, rest)
    ensures AllPlaced(MergeFrom(cur, rest, cfg)) == Placed(cur) + rest
    ensures AllFit(MergeFrom(cur, rest, cfg))
    decreases |rest|
  {
    if rest == [] {
      PlacedCons(cur, []);
      assert [cur] + [] == [cur];
    } else {
      FollowsOn(cur, rest);
      assert rest == [rest[0]] + rest[1..];
      if Mergeable(cur, rest[0], cfg) {
        ExtendedPlaces(cur, rest[0]);
        MergeKeepsTags(Extended(cur, rest[0]), rest[1..], cfg);
        assert Placed(cur) + [rest[0]] + rest[1..] == Placed(cur) + rest;
      } else {
        MergeKeepsTags(Fresh(rest[0]), rest[1..], cfg);
        PlacedCons(cur, MergeFrom(Fresh(rest[0]), rest[1..], cfg));
        assert Placed(Fresh(rest[0])) == [rest[0]];
      }
    }
  }

  lemma {:induction false} PlacedTogether(a: seq<ByteRange>, b: seq<ByteRange>)
    ensures AllPlaced(a + b) == AllPlaced(a) + AllPlaced(b)
  {
    if a == [] {
      assert a + b == b;
    } else {
      var r, more := a[0], a[1..];
      calc {
        AllPlaced(a + b);
        { assert a + b == [r] + (more + b); }
        AllPlaced([r] + (more + b));
        { PlacedCons(r, more + b); }
        Placed(r) + AllPlaced(more + b);
        { PlacedTogether(more, b); }
        Placed(r) + (AllPlaced(more) + AllPlaced(b));
        (Placed(r) + AllPlaced(more)) + AllPlaced(b);
        { PlacedCons(r, more); }
        AllPlaced([r] + more) + AllPlaced(b);
        { assert a == [r] + more; }
        AllPlaced(a) + AllPlaced(b);
      }
    }
  }

  function GroupOf(parsed: seq<ParsedTag>, key: GroupKey): seq<ParsedTag> { OfKey(parsed, |parsed|, KeyOf, key) }

  /** One way to order the groups, and the tags within each group by offset. */
  datatype Layout = Layout(key: GroupKey, sorted: seq<ParsedTag>)

  ghost predicate LaysOut(l: Layout, parsed: seq<ParsedTag>) {
    l.sorted != [] && SortedBy(l.sorted, OffsetOf) && multiset(l.sorted) == multiset(GroupOf(parsed, l.key))
  }

  /** Every group once. */
  ghost predicate LaysOutAll(layouts: seq<Layout>, parsed: seq<ParsedTag>) {
    && (forall i :: 0 <= i < |layouts| ==> LaysOut(layouts[i], parsed))
    && (forall i, j :: 0 <= i < j < |layouts| ==> layouts[i].key != layouts[j].key)
    && forall key :: GroupOf(parsed, key) != [] ==> exists i :: 0 <= i < |layouts| && layouts[i].key == key
  }

  ghost function MergedGroup(l: Layout, cfg: BatchConfig): seq<ByteRange>
    requires l.sorted != []
  {
    MergeFrom(Fresh(l.sorted[0]), l.sorted[1..], cfg)
  }

  /** The merged ranges of all groups, one group after the other. */
  ghost function Merged(layouts: seq<Layout>, cfg: BatchConfig, n: nat): seq<ByteRange>
    requires n <= |layouts|
  {
    if n == 0 then []
    else Merged(layouts, cfg, n - 1) + if layouts[n - 1].sorted == [] then [] else MergedGroup(layouts[n - 1], cfg)
  }

  /** buildS7ContiguousRanges: the groups are taken in any order. */
  method BuildRanges(parsed: seq<ParsedTag>, cfg: BatchConfig) returns (ranges: seq<ByteRange>, ghost layouts: seq<Layout>)
    ensures LaysOutAll(layouts, parsed) && ranges == Merged(layouts, cfg, |layouts|)
    ensures multiset(AllPlaced(ranges)) == multiset(parsed)
    ensures AllFit(ranges)
  {
    hide MergedGroup, LaysOut, AllFit;
    ranges, layouts := [], [];
    var groups := GroupBy(parsed, KeyOf);
    var todo := groups.Keys;
    while todo != {}
      invariant Taken(layouts, parsed, groups.Keys, todo)
      invariant ranges == Merged(layouts, cfg, |layouts|)
      decreases todo
    {
      var key :| key in todo;
      var more, sorted := MergeGroup(groups[key], cfg);
      ghost var l := Layout(key, sorted);
      assert LaysOut(l, parsed) && MergedGroup(l, cfg) == more by { JustMerged(l, parsed, cfg); }
      TakeOne(layouts, parsed, groups.Keys, todo, l);
      MergedNext(layouts, cfg, l);
      ranges, layouts, todo := ranges + more, layouts + [l], todo - {key};
    }
    AllTaken(layouts, parsed, groups.Keys);
    LayoutsPlaced(layouts, parsed, cfg);
  }

  lemma JustMerged(l: Layout, parsed: seq<ParsedTag>, cfg: BatchConfig)
    requires l.sorted != [] && SortedBy(l.sorted, OffsetOf) && multiset(l.sorted) == multiset(OfKey(parsed, |parsed|, KeyOf, l.key))
    ensures LaysOut(l, parsed) && MergedGroup(l, cfg) == MergeFrom(Fresh(l.sorted[0]), l.sorted[1..], cfg)
  {
  }

  /** The groups taken so far, each once. */
  ghost predicate Taken(layouts: seq<Layout>, parsed: seq<ParsedTag>, keys: set<GroupKey>, todo: set<GroupKey>) {
    && todo <= keys
    && (forall i :: 0 <= i < |layouts| ==> LaysOut(layouts[i], parsed) && layouts[i].key in keys - todo)
    && (forall i, j :: 0 <= i < j < |layouts| ==> layouts[i].key != layouts[j].key)
    && forall key :: key in keys - todo ==> exists i :: 0 <= i < |layouts| && layouts[i].key == key
  }

  lemma TakeOne(layouts: seq<Layout>, parsed: seq<ParsedTag>, keys: set<GroupKey>, todo: set<GroupKey>, l: Layout)
    requires Taken(layouts, parsed, keys, todo) && l.key in todo && LaysOut(l, parsed)
    ensures Taken(layouts + [l], parsed, keys, todo - {l.key})
  {
    hide LaysOut;
    var more := layouts + [l];
    forall key | key in keys - (todo - {l.key}) ensures exists i :: 0 <= i < |more| && more[i].key == key {
      if key == l.key {
        assert more[|layouts|].key == key;
      } else {
        assert key in keys - todo;
        var i :| 0 <= i < |layouts| && layouts[i].key == key;
        assert more[i].key == key;
      }
    }
  }

  lemma AllTaken(layouts: seq<Layout>, parsed: seq<ParsedTag>, keys: set<GroupKey>)
    requires Taken(layouts, parsed, keys, {}) && forall key :: key in keys <==> OfKey(parsed, |parsed|, KeyOf, key) != []
    ensures LaysOutAll(layouts, parsed)
  {
    forall key | GroupOf(parsed, key) != [] ensures exists i :: 0 <= i < |layouts| && layouts[i].key == key {
      assert key in keys - {};
    }
  }

  lemma {:induction false} MergedExtend(layouts: seq<Layout>, cfg: BatchConfig, l: Layout, n: nat)
    requires n <= |layouts|
    ensures Merged(layouts + [l], cfg, n) == Merged(layouts, cfg, n)
  {
    hide MergedGroup;
    if n > 0 {
      assert (layouts + [l])[n - 1] == layouts[n - 1];
      MergedExtend(layouts, cfg, l, n - 1);
    }
  }

  lemma MergedNext(layouts: seq<Layout>, cfg: BatchConfig, l: Layout)
    requires l.sorted != []
    ensures Merged(layouts + [l], cfg, |layouts| + 1) == Merged(layouts, cfg, |layouts|) + MergedGroup(l, cfg)
  {
    MergedExtend(layouts, cfg, l, |layouts|);
  }

  // ----- every parsed tag is placed once -----

  ghost function FirstKeys(layouts: seq<Layout>, n: nat): set<GroupKey>
    requires n <= |layouts|
  {
    if n == 0 then {} else FirstKeys(layouts, n - 1) + {layouts[n - 1].key}
  }

  lemma {:induction false} FirstKeysAre(layouts: seq<Layout>, n: nat, key: GroupKey)
    requires n <= |layouts|
    ensures key in FirstKeys(layouts, n) <==> exists i :: 0 <= i < n && layouts[i].key == key
  {
    if n > 0 {
      FirstKeysAre(layouts, n - 1, key);
    }
  }

  lemma {:induction false} MergedPlaced(layouts: seq<Layout>, parsed: seq<ParsedTag>, cfg: BatchConfig, n: nat)
    requires LaysOutAll(layouts, parsed) && n <= |layouts|
    ensures multiset(AllPlaced(Merged(layouts, cfg, n))) == OfKeys(parsed, |parsed|, KeyOf, FirstKeys(layouts, n))
    ensures AllFit(Merged(layouts, cfg, n))
  {
    hide MergedGroup, AllFit, LaysOut, LaysOutAll, Merged, AllPlaced, OfKey, OfKeys;
    if n == 0 {
      NoneMerged(layouts, cfg);
      NoKeys(parsed, |parsed|, KeyOf);
    } else {
      var l, before := layouts[n - 1], Merged(layouts, cfg, n - 1);
      LayoutFacts(layouts, parsed, n - 1);
      MergedPlaced(layouts, parsed, cfg, n - 1);
      GroupPlaced(parsed, l, cfg);
      MergedStep(layouts, cfg, n);
      PlacedTogether(before, MergedGroup(l, cfg));
      FitTogether(before, MergedGroup(l, cfg));
      OneMoreKey(parsed, |parsed|, KeyOf, FirstKeys(layouts, n - 1), l.key);
    }
  }

  lemma LayoutFacts(layouts: seq<Layout>, parsed: seq<ParsedTag>, i: nat)
    requires LaysOutAll(layouts, parsed) && i < |layouts|
    ensures LaysOut(layouts[i], parsed) && layouts[i].sorted != [] && layouts[i].key !in FirstKeys(layouts, i)
  {
    assert LaysOut(layouts[i], parsed);
    FirstKeysAre(layouts, i, layouts[i].key);
  }

  lemma NoneMerged(layouts: seq<Layout>, cfg: BatchConfig)
    ensures Merged(layouts, cfg, 0) == [] && AllPlaced([]) == [] && AllFit([])
  {
  }

  lemma MergedStep(layouts: seq<Layout>, cfg: BatchConfig, n: nat)
    requires 0 < n <= |layouts| && layouts[n - 1].sorted != []
    ensures Merged(layouts, cfg, n) == Merged(layouts, cfg, n - 1) + MergedGroup(layouts[n - 1], cfg)
  {
  }

  lemma FitTogether(a: seq<ByteRange>, b: seq<ByteRange>)
    requires AllFit(a) && AllFit(b)
    ensures AllFit(a + b)
  {
  }

  lemma LayoutsPlaced(layouts: seq<Layout>, parsed: seq<ParsedTag>, cfg: BatchConfig)
    requires LaysOutAll(layouts, parsed)
    ensures multiset(AllPlaced(Merged(layouts, cfg, |layouts|))) == multiset(parsed)
    ensures AllFit(Merged(layouts, cfg, |layouts|))
  {
    MergedPlaced(layouts, parsed, cfg, |layouts|);
    forall key | OfKey(parsed, |parsed|, KeyOf, key) != [] ensures key in FirstKeys(layouts, |layouts|) {
      assert GroupOf(parsed, key) != [];
      FirstKeysAre(layouts, |layouts|, key);
    }
    AllGrouped(parsed, KeyOf, FirstKeys(layouts, |layouts|));
  }

  lemma GroupPlaced(parsed: seq<ParsedTag>, l: Layout, cfg: BatchConfig)
    requires LaysOut(l, parsed)
    ensures l.sorted != [] && AllPlaced(MergedGroup(l, cfg)) == l.sorted && AllFit(MergedGroup(l, cfg))
    ensures multiset(AllPlaced(MergedGroup(l, cfg))) == multiset(GroupOf(parsed, l.key))
  {
    GroupMembers(parsed, KeyOf, l.key);
    var group, sorted := GroupOf(parsed, l.key), l.sorted;
    forall i | 0 <= i < |sorted| ensures KeyOf(sorted[i]) == l.key && sorted[0].at.offset <= sorted[i].at.offset {
      assert sorted[i] in multiset(sorted) && sorted[i] in multiset(group);
      assert i > 0 ==> OffsetOf(sorted[0]) <= OffsetOf(sorted[i]);
    }
    assert Placed(Fresh(sorted[0])) == [sorted[0]];
    assert [sorted[0]] + sorted[1..] == sorted;
    FollowsOn(Fresh(sorted[0]), sorted);
    hide Follows, Fresh;
    MergeKeepsTags(Fresh(sorted[0]), sorted[1..], cfg);
  }

  // ----- the number of ranges is minimal -----

  ghost function Spans(tags: seq<ParsedTag>): (s: seq<Span>)
    ensures |s| == |tags|
  {
    seq(|tags|, i requires 0 <= i < |tags| => Span(tags[i].at.offset, tags[i].at.offset + tags[i].byteCount))
  }

  function AsLimits(cfg: BatchConfig): Limits { Limits(cfg.maxGap, cfg.maxBytes, true) }

  ghost predicate IsRun(cur: ByteRange, all: seq<ParsedTag>, j: nat, k: nat) {
    j < k <= |all| && cur.start == all[j].at.offset && cur.start + cur.total == Reach(Spans(all), j, k)
  }

  lemma {:induction false} RangesAreCuts(cur: ByteRange, all: seq<ParsedTag>, j: nat, k: nat, cfg: BatchConfig)
    requires IsRun(cur, all, j, k)
    ensures |MergeFrom(cur, all[k..], cfg)| == |Cuts(Spans(all), AsLimits(cfg), j, k)|
    decreases |all| - k
  {
    if k == |all| {
      MergeEnd(cur, all, cfg);
    } else {
      MergeStep(cur, all, k, cfg);
      if Mergeable(cur, all[k], cfg) {
        RangesAreCuts(Extended(cur, all[k]), all, j, k + 1, cfg);
      } else {
        RangesAreCuts(Fresh(all[k]), all, k, k + 1, cfg);
      }
    }
  }

  /** Within a group no other way to cut the sorted tags under the same limits uses fewer ranges. */
  lemma RangesAreMinimal(sorted: seq<ParsedTag>, cfg: BatchConfig, other: seq<nat>)
    requires sorted != [] && SortedBy(sorted, OffsetOf)
    requires PartitionFrom(Spans(sorted), AsLimits(cfg), other, 0)
    ensures |MergeFrom(Fresh(sorted[0]), sorted[1..], cfg)| <= |other|
  {
    RangesAreCuts(Fresh(sorted[0]), sorted, 0, 1, cfg);
    assert WellFormed(Spans(sorted)) by {
      forall j, k | 0 <= j < k < |sorted| ensures Spans(sorted)[j].lo <= Spans(sorted)[k].lo {
        assert OffsetOf(sorted[j]) <= OffsetOf(sorted[k]);
      }
    }
    CutsAreFewest(Spans(sorted), AsLimits(cfg), other);
  }

  /** The starts cut the group's sorted tags into runs within the limits. */
  ghost predicate Divides(l: Layout, cfg: BatchConfig, starts: seq<nat>) {
    PartitionFrom(Spans(l.sorted), AsLimits(cfg), starts, 0)
  }

  ghost function TotalRuns(others: seq<seq<nat>>, n: nat): nat
    requires n <= |others|
  {
    if n == 0 then 0 else TotalRuns(others, n - 1) + |others[n - 1]|
  }

  /** Over all groups, no other way to cut each group's sorted tags into runs needs fewer ranges in all. */
  lemma {:induction false} AllRangesAreMinimal(layouts: seq<Layout>, parsed: seq<ParsedTag>, cfg: BatchConfig, others: seq<seq<nat>>, n: nat)
    requires LaysOutAll(layouts, parsed) && |others| == |layouts| && n <= |layouts|
    requires forall i :: 0 <= i < |layouts| ==> Divides(layouts[i], cfg, others[i])
    ensures |Merged(layouts, cfg, n)| <= TotalRuns(others, n)
  {
    hide LaysOutAll, Merged, Divides, MergedGroup, LaysOut;
    if n > 0 {
      AllRangesAreMinimal(layouts, parsed, cfg, others, n - 1);
      LayoutFacts(layouts, parsed, n - 1);
      MergedStep(layouts, cfg, n);
      assert Divides(layouts[n - 1], cfg, others[n - 1]);
      GroupIsMinimal(layouts[n - 1], parsed, cfg, others[n - 1]);
    } else {
      NoneMerged(layouts, cfg);
    }
  }

  lemma GroupIsMinimal(l: Layout, parsed: seq<ParsedTag>, cfg: BatchConfig, other: seq<nat>)
    requires LaysOut(l, parsed) && Divides(l, cfg, other)
    ensures |MergedGroup(l, cfg)| <= |other|
  {
    RangesAreMinimal(l.sorted, cfg, other);
  }
}
