/** Grouping Modbus tags into contiguous address ranges. Registers and coils use the same
    algorithm with different limits. All address arithmetic is 16-bit and wraps. */
module ModbusRanges {
  import opened Domain
  import opened ModbusConversion
  import opened Merging
  import opened Sorting

  const MAX_REGISTERS := 125      // MODBUS Application Protocol V1.1b3, sections 6.3 and 6.4
  const MAX_COILS := 2000         // sections 6.1 and 6.2

  datatype BatchConfig = BatchConfig(maxPerRead: u16, maxGap: u16)

  const REGISTER_BATCH := BatchConfig(100, 10)
  const COIL_BATCH := BatchConfig(1000, 32)

  function ProtocolLimit(rt: RegisterType): nat {
    if IsBitType(rt) then MAX_COILS else MAX_REGISTERS
  }

  function DefaultBatch(rt: RegisterType): BatchConfig {
    if IsBitType(rt) then COIL_BATCH else REGISTER_BATCH
  }

  /** validateProtocolLimits accepts the tag. */
  predicate WithinLimits(tag: Tag) {
    && tag.count != 0
    && (!tag.registerType.OtherRegister? ==> tag.count <= ProtocolLimit(tag.registerType))
    && tag.address + tag.count <= 65535
  }

  /** One 16-bit addition or subtraction, reduced modulo 2^16. */
  function U16(x: int): (r: u16)
    requires -0x1_0000 <= x < 0x2_0000
    ensures (x - r) % 0x1_0000 == 0
  {
    if x < 0 then x + 0x1_0000 else if x < 0x1_0000 then x else x - 0x1_0000
  }

  /** The inclusive end `Address + RegisterCount - 1` as the code computes it. */
  function TagEnd(tag: Tag): u16 { U16(U16(tag.address + tag.count) - 1) }

  datatype RegisterRange = RegisterRange(start: u16, end: u16, tags: seq<Tag>)

  function Fresh(tag: Tag): RegisterRange { RegisterRange(tag.address, TagEnd(tag), [tag]) }

  predicate Mergeable(cur: RegisterRange, tag: Tag, cfg: BatchConfig) {
    var gap := tag.address - cur.end - 1;
    var newSize := U16(U16(TagEnd(tag) - cur.start) + 1);
    gap <= cfg.maxGap && newSize <= cfg.maxPerRead
  }

  function Extended(cur: RegisterRange, tag: Tag): RegisterRange {
    RegisterRange(cur.start, if TagEnd(tag) > cur.end then TagEnd(tag) else cur.end, cur.tags + [tag])
  }

  /** The ranges produced from the current one and the sorted tags still to come. */
  function MergeFrom(cur: RegisterRange, rest: seq<Tag>, cfg: BatchConfig): (ranges: seq<RegisterRange>)
    ensures ranges != []
    decreases |rest|
  {
    if rest == [] then [cur]
    else if Mergeable(cur, rest[0], cfg) then MergeFrom(Extended(cur, rest[0]), rest[1..], cfg)
    else [cur] + MergeFrom(Fresh(rest[0]), rest[1..], cfg)
  }

  /** All tags of the ranges, in order. */
  function Flatten(ranges: seq<RegisterRange>): seq<Tag> {
    if ranges == [] then [] else ranges[0].tags + Flatten(ranges[1..])
  }

  function Address(tag: Tag): int { tag.address }

  function SortedTags(tags: seq<Tag>): seq<Tag> { StableSorted(tags, Address) }

  /** The ranges of a list of tags. */
  function RangesOf(tags: seq<Tag>, cfg: BatchConfig): seq<RegisterRange> {
    if tags == [] then []
    else var sorted := SortedTags(tags); MergeFrom(Fresh(sorted[0]), sorted[1..], cfg)
  }

  /** buildContiguousRanges and buildCoilRanges. */
  method BuildRanges(tags: seq<Tag>, cfg: BatchConfig) returns (ranges: seq<RegisterRange>)
    ensures ranges == RangesOf(tags, cfg)
  {
    ranges := [];
    if |tags| == 0 {
      return;
    }
    hide MergeFrom, Mergeable, Extended, Fresh;
    var a := new Tag[|tags|](i requires 0 <= i < |tags| => tags[i]);
    assert a[..] == tags;
    InsertionSort(a, Address);
    var sorted := a[..];
    var current := Fresh(sorted[0]);
    var i := 1;
    while i < |sorted|
      invariant 1 <= i <= |sorted|
      invariant ranges + MergeFrom(current, sorted[i..], cfg) == MergeFrom(Fresh(sorted[0]), sorted[1..], cfg)
    {
      MergeStep(current, sorted, i, cfg);
      if Mergeable(current, sorted[i], cfg) {
        current := Extended(current, sorted[i]);
      } else {
        Regroup(ranges, current, MergeFrom(Fresh(sorted[i]), sorted[i + 1..], cfg));
        ranges, current := ranges + [current], Fresh(sorted[i]);
      }
      i := i + 1;
    }
    MergeEnd(current, sorted, cfg);
    ranges := ranges + [current];
  }

  /** When the next tag joins the current range, in plain numbers: after a gap of at most 10 registers or 32
      coils, and if the range then asks for at most 100 registers or 1000 coils up to the tag's end. */
  lemma {:induction false} MergesExactly(cur: RegisterRange, tag: Tag, rest: seq<Tag>, rt: RegisterType)
    requires WithinLimits(tag) && cur.start <= tag.address && cur.end < 65535
    ensures var last, coils := tag.address + tag.count - 1, rt == Coil || rt == DiscreteInput;
            var joins := && tag.address - cur.end - 1 <= (if coils then 32 else 10)
                         && last - cur.start + 1 <= (if coils then 1000 else 100);
            MergeFrom(cur, [tag] + rest, DefaultBatch(rt)) ==
            if joins then MergeFrom(RegisterRange(cur.start, if last > cur.end then last else cur.end, cur.tags + [tag]),
                                    rest, DefaultBatch(rt))
            else [cur] + MergeFrom(RegisterRange(tag.address, last, [tag]), rest, DefaultBatch(rt))
  {
    NoWrap(cur, tag);
    assert ([tag] + rest)[1..] == rest;
  }

  /** What validation accepts, in plain numbers. */
  lemma AcceptsExactly(tag: Tag)
    ensures WithinLimits(tag) <==>
            && 1 <= tag.count && tag.address + tag.count <= 65535
            && (tag.registerType == HoldingRegister || tag.registerType == InputRegister ==> tag.count <= 125)
            && (tag.registerType == Coil || tag.registerType == DiscreteInput ==> tag.count <= 2000)
  {
  }

  /** No tag is lost, duplicated or moved, whatever the tags are. */
  lemma {:induction false} MergeKeepsTags(cur: RegisterRange, rest: seq<Tag>, cfg: BatchConfig)
    ensures Flatten(MergeFrom(cur, rest, cfg)) == cur.tags + rest
    decreases |rest|
  {
    if rest != [] {
      if Mergeable(cur, rest[0], cfg) {
        MergeKeepsTags(Extended(cur, rest[0]), rest[1..], cfg);
      } else {
        MergeKeepsTags(Fresh(rest[0]), rest[1..], cfg);
        var more := MergeFrom(Fresh(rest[0]), rest[1..], cfg);
        assert ([cur] + more)[1..] == more;
      }
    } else {
      assert Flatten([cur]) == cur.tags + Flatten([]) by { assert [cur][1..] == []; }
    }
  }

  // ----- ranges of tags within the protocol limits -----

  ghost predicate AllWithin(tags: seq<Tag>, rt: RegisterType) {
    !rt.OtherRegister? && forall t :: t in tags ==> WithinLimits(t) && t.registerType == rt
  }

  /** The range is the exact hull of its tags, computed without wrapping, and may be requested. */
  ghost predicate ExactHull(r: RegisterRange, rt: RegisterType) {
    && r.tags != []
    && r.start == r.tags[0].address
    && (forall t :: t in r.tags ==> r.start <= t.address && t.address + t.count - 1 <= r.end)
    && (exists t :: t in r.tags && t.address + t.count - 1 == r.end)
    && 1 <= r.end - r.start + 1 <= ProtocolLimit(rt)
  }

  /** Within the limits no 16-bit operation of the builder wraps. */
  lemma NoWrap(cur: RegisterRange, tag: Tag)
    requires WithinLimits(tag) && cur.start <= tag.address && cur.end < 65535
    ensures TagEnd(tag) == tag.address + tag.count - 1
    ensures U16(U16(TagEnd(tag) - cur.start) + 1) == tag.address + tag.count - cur.start
  {
  }

  lemma {:induction false} MergeGivesHulls(cur: RegisterRange, rest: seq<Tag>, rt: RegisterType)
    requires AllWithin(cur.tags + rest, rt) && SortedBy(cur.tags + rest, Address) && ExactHull(cur, rt)
    ensures forall r :: r in MergeFrom(cur, rest, DefaultBatch(rt)) ==> ExactHull(r, rt)
    decreases |rest|
  {
    hide ExactHull, WithinLimits, TagEnd;
    if rest != [] {
      var tag := rest[0];
      NextTagFacts(cur, rest, rt);
      if Mergeable(cur, tag, DefaultBatch(rt)) {
        assert Extended(cur, tag).tags + rest[1..] == cur.tags + rest;
        ExtendedHull(cur, tag, rt);
        hide Mergeable, Extended, AllWithin, SortedBy;
        MergeGivesHulls(Extended(cur, tag), rest[1..], rt);
      } else {
        assert Fresh(tag).tags + rest[1..] == (cur.tags + rest)[|cur.tags|..];
        SuffixFacts(cur.tags + rest, |cur.tags|, rt);
        FreshHull(tag, rt);
        hide Mergeable, Fresh, AllWithin, SortedBy;
        MergeGivesHulls(Fresh(tag), rest[1..], rt);
      }
    }
  }

  lemma SuffixFacts(all: seq<Tag>, m: nat, rt: RegisterType)
    requires AllWithin(all, rt) && SortedBy(all, Address) && m <= |all|
    ensures AllWithin(all[m..], rt) && SortedBy(all[m..], Address)
  {
    forall i, j | 0 <= i < j < |all[m..]| ensures Address(all[m..][i]) <= Address(all[m..][j]) {
      assert Address(all[m + i]) <= Address(all[m + j]);
    }
  }

  lemma NextTagFacts(cur: RegisterRange, rest: seq<Tag>, rt: RegisterType)
    requires AllWithin(cur.tags + rest, rt) && SortedBy(cur.tags + rest, Address) && ExactHull(cur, rt)
    requires rest != []
    ensures WithinLimits(rest[0]) && rest[0].registerType == rt
    ensures cur.start <= rest[0].address && cur.end < 65535
  {
    var all := cur.tags + rest;
    assert all[|cur.tags|] == rest[0] && all[0] == cur.tags[0];
    assert Address(all[0]) <= Address(all[|cur.tags|]);
    var t :| t in cur.tags && t.address + t.count - 1 == cur.end;
    assert t in all && rest[0] in all;
  }

  lemma FreshHull(tag: Tag, rt: RegisterType)
    requires WithinLimits(tag) && tag.registerType == rt && !rt.OtherRegister?
    ensures ExactHull(Fresh(tag), rt)
  {
    assert tag in Fresh(tag).tags;
  }

  lemma ExtendedHull(cur: RegisterRange, tag: Tag, rt: RegisterType)
    requires WithinLimits(tag) && cur.start <= tag.address && cur.end < 65535 && !rt.OtherRegister?
    requires ExactHull(cur, rt) && Mergeable(cur, tag, DefaultBatch(rt))
    ensures ExactHull(Extended(cur, tag), rt)
  {
    NoWrap(cur, tag);
    var r := Extended(cur, tag);
    var t :| t in cur.tags && t.address + t.count - 1 == cur.end;
    assert t in r.tags && tag in r.tags;
  }

  /** Whatever the tags, the ranges hold them in the order of the stable sort. */
  lemma RangesHoldTags(tags: seq<Tag>, cfg: BatchConfig)
    ensures Flatten(RangesOf(tags, cfg)) == SortedTags(tags) && multiset(SortedTags(tags)) == multiset(tags)
  {
    StableSortedIsSorted(tags, Address);
    if tags != [] {
      var sorted := SortedTags(tags);
      MergeKeepsTags(Fresh(sorted[0]), sorted[1..], cfg);
      assert Fresh(sorted[0]).tags + sorted[1..] == sorted;
    }
  }

  /** The ranges of a group of validated tags are exact hulls and legal requests. */
  lemma GroupRanges(tags: seq<Tag>, rt: RegisterType)
    requires AllWithin(tags, rt)
    ensures forall r :: r in RangesOf(tags, DefaultBatch(rt)) ==>
              ExactHull(r, rt) && 1 <= r.end - r.start + 1 <= if rt == Coil || rt == DiscreteInput then 2000 else 125
  {
    if tags != [] {
      var sorted := SortedTags(tags);
      StableSortedIsSorted(tags, Address);
      SameWithin(tags, sorted, rt);
      assert sorted[0] in sorted;
      assert Fresh(sorted[0]).tags + sorted[1..] == sorted;
      FreshHull(sorted[0], rt);
      MergeGivesHulls(Fresh(sorted[0]), sorted[1..], rt);
    }
  }

  lemma SameWithin(tags: seq<Tag>, sorted: seq<Tag>, rt: RegisterType)
    requires AllWithin(tags, rt) && multiset(sorted) == multiset(tags)
    ensures AllWithin(sorted, rt)
  {
    forall t | t in sorted ensures WithinLimits(t) && t.registerType == rt {
      assert t in multiset(sorted) && t in multiset(tags);
    }
  }

  // ----- the number of requests is minimal -----

  ghost function Spans(tags: seq<Tag>): (s: seq<Span>)
    ensures |s| == |tags|
  {
    seq(|tags|, i requires 0 <= i < |tags| => Span(tags[i].address, tags[i].address + tags[i].count))
  }

  function AsLimits(cfg: BatchConfig): Limits { Limits(cfg.maxGap, cfg.maxPerRead, false) }

  /** `cur` is the run of tags j .. k-1. */
  ghost predicate IsRun(cur: RegisterRange, all: seq<Tag>, j: nat, k: nat) {
    && j < k <= |all|
    && cur.start == all[j].address
    && cur.end + 1 == Reach(Spans(all), j, k)
  }

  lemma MergeableIsAccepts(cur: RegisterRange, all: seq<Tag>, j: nat, k: nat, cfg: BatchConfig)
    requires forall t :: t in all ==> WithinLimits(t)
    requires SortedBy(all, Address) && IsRun(cur, all, j, k) && k < |all|
    ensures Mergeable(cur, all[k], cfg) == Accepts(Spans(all), AsLimits(cfg), j, k)
    ensures IsRun(Extended(cur, all[k]), all, j, k + 1) && IsRun(Fresh(all[k]), all, k, k + 1)
  {
    var ts, tag := Spans(all), all[k];
    assert tag in all;
    var x := ReachAttained(ts, j, k);
    assert all[x] in all;
    assert Address(all[j]) <= Address(tag);
    NoWrap(cur, tag);
  }

  lemma RunBounds(cur: RegisterRange, all: seq<Tag>, j: nat, k: nat)
    requires IsRun(cur, all, j, k)
    ensures j < k <= |all| == |Spans(all)|
  {
  }

  lemma {:induction false} RangesAreCuts(cur: RegisterRange, all: seq<Tag>, j: nat, k: nat, cfg: BatchConfig)
    requires forall t :: t in all ==> WithinLimits(t)
    requires SortedBy(all, Address) && IsRun(cur, all, j, k)
    ensures |MergeFrom(cur, all[k..], cfg)| == |Cuts(Spans(all), AsLimits(cfg), j, k)|
    decreases |all| - k
  {
    hide MergeFrom, Mergeable, Extended, Fresh, IsRun, SortedBy, WithinLimits, Accepts, Spans;
    assert k <= |all| && j < k by { RunBounds(cur, all, j, k); }
    if k == |all| {
      MergeEnd(cur, all, cfg);
    } else {
      MergeStep(cur, all, k, cfg);
      MergeableIsAccepts(cur, all, j, k, cfg);
      if Mergeable(cur, all[k], cfg) {
        RangesAreCuts(Extended(cur, all[k]), all, j, k + 1, cfg);
      } else {
        RangesAreCuts(Fresh(all[k]), all, k, k + 1, cfg);
      }
    }
  }

  lemma MergeEnd(cur: RegisterRange, all: seq<Tag>, cfg: BatchConfig)
    ensures MergeFrom(cur, all[|all|..], cfg) == [cur]
  {
    assert all[|all|..] == [];
  }

  lemma MergeStep(cur: RegisterRange, all: seq<Tag>, k: nat, cfg: BatchConfig)
    requires k < |all|
    ensures MergeFrom(cur, all[k..], cfg) ==
            if Mergeable(cur, all[k], cfg) then MergeFrom(Extended(cur, all[k]), all[k + 1..], cfg)
            else [cur] + MergeFrom(Fresh(all[k]), all[k + 1..], cfg)
  {
    assert all[k..][1..] == all[k + 1..];
  }

  /** No other way to cut the sorted tags into runs under the same limits needs fewer requests. */
  lemma RequestsAreMinimal(tags: seq<Tag>, cfg: BatchConfig, other: seq<nat>)
    requires forall t :: t in tags ==> WithinLimits(t)
    requires PartitionFrom(Spans(SortedTags(tags)), AsLimits(cfg), other, 0)
    ensures |RangesOf(tags, cfg)| <= |other|
  {
    var sorted := SortedTags(tags);
    StableSortedIsSorted(tags, Address);
    forall t | t in sorted ensures WithinLimits(t) {
      assert t in multiset(sorted) && t in multiset(tags);
    }
    if tags != [] {
      SortedAreMinimal(sorted, cfg, other);
    }
  }

  lemma SortedAreMinimal(sorted: seq<Tag>, cfg: BatchConfig, other: seq<nat>)
    requires sorted != [] && (forall t :: t in sorted ==> WithinLimits(t)) && SortedBy(sorted, Address)
    requires PartitionFrom(Spans(sorted), AsLimits(cfg), other, 0)
    ensures |MergeFrom(Fresh(sorted[0]), sorted[1..], cfg)| <= |other|
  {
    assert sorted[0] in sorted;
    RangesAreCuts(Fresh(sorted[0]), sorted, 0, 1, cfg);
    SpansWellFormed(sorted);
    CutsAreFewest(Spans(sorted), AsLimits(cfg), other);
  }

  lemma SpansWellFormed(sorted: seq<Tag>)
    requires SortedBy(sorted, Address)
    ensures WellFormed(Spans(sorted))
  {
    forall j, k | 0 <= j < k < |sorted| ensures Spans(sorted)[j].lo <= Spans(sorted)[k].lo {
      assert Address(sorted[j]) <= Address(sorted[k]);
    }
  }
}
