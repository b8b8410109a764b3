/** Writing S7 tags: booleans one by one, everything else in chunks of items per request. */
module S7Write {
  import opened Bytes
  import opened Domain
  import opened S7Batch

  datatype Write = Write(tag: Tag, writable: bool, value: Value)

  datatype IndexedWrite = IndexedWrite(origIndex: nat, write: Write)

  datatype Item = Item(at: Address, data: seq<byte>)

  /** What the client meets: value encoding, the outcome of multi-write k and of the item at each place of
      its request, of the q-th single boolean write, and whether the context is found done at poll k. */
  datatype Device = Device(
    encode: (Value, DataType) -> Result<seq<byte>>,
    attached: nat -> bool,
    requestError: nat -> Option<Error>,
    itemError: (nat, nat, Item) -> Option<Error>,
    writeBool: (nat, Write) -> Option<Error>,
    cancelled: nat -> bool)

  /** The item a write turns into, or why it cannot be sent. */
  function ItemOf(dev: Device, w: Write): Result<Item> {
    if w.tag.address.Failure? then Failure(w.tag.address.error)
    else if w.tag.address.value.area.OtherArea? then Failure(InvalidArea)
    else
      var data := dev.encode(w.value, w.tag.dataType);
      if data.Failure? then Failure(data.error) else Success(Item(w.tag.address.value, data.value))
  }

  /** How many of the writes from lo up to r become items. */
  function Rank(dev: Device, ws: seq<Write>, lo: nat, r: nat): nat
    requires lo <= r <= |ws|
    decreases r
  {
    if r == lo then 0 else Rank(dev, ws, lo, r - 1) + if ItemOf(dev, ws[r - 1]).Success? then 1 else 0
  }

  function Plain(list: seq<IndexedWrite>): (ws: seq<Write>)
    ensures |ws| == |list|
  {
    seq(|list|, r requires 0 <= r < |list| => list[r].write)
  }

  /** The outcome of one write of multi-write k, whose item, if it has one, is at the given place. */
  function BatchOutcome(dev: Device, k: nat, place: nat, w: Write): Option<Error> {
    var item := ItemOf(dev, w);
    if item.Failure? then Some(item.error)
    else if !dev.attached(k) then Some(ConnectionClosed)
    else if dev.requestError(k).Some? then dev.requestError(k)
    else dev.itemError(k, place, item.value)
  }

  /** The item carries the write's own address and encoded value, and exactly these writes have none. */
  lemma ItemMeans(dev: Device, w: Write)
    ensures ItemOf(dev, w).Success? <==>
            w.tag.address.Success? && !w.tag.address.value.area.OtherArea? && dev.encode(w.value, w.tag.dataType).Success?
    ensures ItemOf(dev, w).Success? ==>
            ItemOf(dev, w).value.at == w.tag.address.value && Success(ItemOf(dev, w).value.data) == dev.encode(w.value, w.tag.dataType)
    ensures ItemOf(dev, w).Failure? ==>
            if w.tag.address.Failure? then ItemOf(dev, w).error == w.tag.address.error
            else if w.tag.address.value.area.OtherArea? then ItemOf(dev, w).error == InvalidArea
            else dev.encode(w.value, w.tag.dataType) == Failure(ItemOf(dev, w).error)
  {
  }

  /** The place of a write's item is the number of writes before it, in its chunk, that became items. */
  lemma {:induction false} RankCounts(dev: Device, ws: seq<Write>, lo: nat, r: nat)
    requires lo <= r <= |ws|
    ensures Rank(dev, ws, lo, r) == |Sendable(dev, ws, lo, r)|
  {
    hide ItemOf;
    if r > lo {
      RankCounts(dev, ws, lo, r - 1);
      SendableNext(dev, ws, lo, r);
      hide Sendable;
    }
  }

  lemma SendableNext(dev: Device, ws: seq<Write>, lo: nat, r: nat)
    requires lo < r <= |ws|
    ensures Sendable(dev, ws, lo, r) ==
            if ItemOf(dev, ws[r - 1]).Success? then Sendable(dev, ws, lo, r - 1) + {r - 1} else Sendable(dev, ws, lo, r - 1)
    ensures r - 1 !in Sendable(dev, ws, lo, r - 1)
  {
    hide ItemOf;
    forall j: nat
      ensures j in Sendable(dev, ws, lo, r) <==> j in Sendable(dev, ws, lo, r - 1) || (j == r - 1 && ItemOf(dev, ws[r - 1]).Success?)
    {
    }
  }

  /** The writes from lo up to r that become items. */
  ghost function Sendable(dev: Device, ws: seq<Write>, lo: nat, r: nat): set<nat>
    requires r <= |ws|
  {
    set j: nat | lo <= j < r && ItemOf(dev, ws[j]).Success?
  }

  /** What an outcome says about the device: success only if nothing failed, and otherwise whose error it is. */
  predicate Tells(dev: Device, k: nat, place: nat, w: Write, outcome: Option<Error>) {
    match ItemOf(dev, w)
    case Failure(e) => outcome == Some(e)
    case Success(item) =>
      && (outcome == None <==> dev.attached(k) && dev.requestError(k) == None && dev.itemError(k, place, item) == None)
      && (!dev.attached(k) ==> outcome == Some(ConnectionClosed))
      && (dev.attached(k) && dev.requestError(k).Some? ==> outcome == dev.requestError(k))
      && (dev.attached(k) && dev.requestError(k) == None ==> outcome == dev.itemError(k, place, item))
  }

  // ----- one multi-write -----

  /** The positions of the writes that became items, in order. */
  ghost predicate ValidPositions(dev: Device, writes: seq<IndexedWrite>, n: nat, items: seq<Item>, valid: seq<nat>)
    requires n <= |writes|
  {
    && |items| == |valid| == Rank(dev, Plain(writes), 0, n)
    && (forall j :: 0 <= j < |valid| ==> valid[j] < n && ItemOf(dev, writes[valid[j]].write) == Success(items[j]))
    && (forall i, j :: 0 <= i < j < |valid| ==> valid[i] < valid[j])
    && (forall i :: 0 <= i < n && ItemOf(dev, writes[i].write).Success? ==> At(valid, Rank(dev, Plain(writes), 0, i), i))
  }

  predicate At(valid: seq<nat>, j: nat, i: nat) { j < |valid| && valid[j] == i }

  /** Why a write cannot be sent, if so. */
  function Unsendable(dev: Device, w: Write): Option<Error> {
    var item := ItemOf(dev, w);
    if item.Failure? then Some(item.error) else None
  }

  method PrepareItems(dev: Device, writes: seq<IndexedWrite>)
    returns (errs: seq<Option<Error>>, items: seq<Item>, valid: seq<nat>)
    ensures |errs| == |writes| && ValidPositions(dev, writes, |writes|, items, valid)
    ensures forall i :: 0 <= i < |writes| ==> errs[i] == Unsendable(dev, writes[i].write)
  {
    errs, items, valid := [], [], [];
    assert ValidPositions(dev, writes, 0, [], []);
    hide ValidPositions, ItemOf;
    for i := 0 to |writes|
      invariant |errs| == i && ValidPositions(dev, writes, i, items, valid)
      invariant forall j :: 0 <= j < i ==> errs[j] == Unsendable(dev, writes[j].write)
    {
      PositionsNext(dev, writes, i, items, valid);
      var item := ItemOf(dev, writes[i].write);
      if item.Failure? {
        errs := errs + [Some(item.error)];
      } else {
        errs, items, valid := errs + [None], items + [item.value], valid + [i];
      }
    }
  }

  lemma PositionsNext(dev: Device, writes: seq<IndexedWrite>, i: nat, items: seq<Item>, valid: seq<nat>)
    requires i < |writes| && ValidPositions(dev, writes, i, items, valid)
    ensures var item := ItemOf(dev, writes[i].write);
            if item.Failure? then ValidPositions(dev, writes, i + 1, items, valid)
            else ValidPositions(dev, writes, i + 1, items + [item.value], valid + [i])
  {
    hide ItemOf;
    var ws, item := Plain(writes), ItemOf(dev, writes[i].write);
    assert Rank(dev, ws, 0, i + 1) == Rank(dev, ws, 0, i) + if item.Success? then 1 else 0;
    if item.Success? {
      var valid' := valid + [i];
      forall j | 0 <= j < i + 1 && ItemOf(dev, writes[j].write).Success? ensures At(valid', Rank(dev, ws, 0, j), j) {
        assert j < i ==> At(valid, Rank(dev, ws, 0, j), j);
      }
    }
  }

  /** Sets the outcome of every item at the position of its write and nowhere else. */
  method Attribute(dev: Device, k: nat, writes: seq<IndexedWrite>, errs0: seq<Option<Error>>, items: seq<Item>, valid: seq<nat>,
                   all: Option<Error>)
    returns (errs: seq<Option<Error>>)
    requires |errs0| == |writes| && ValidPositions(dev, writes, |writes|, items, valid)
    ensures |errs| == |writes|
    ensures forall i :: 0 <= i < |writes| ==>
              errs[i] == var item := ItemOf(dev, writes[i].write);
                         if item.Failure? then errs0[i]
                         else if all.Some? then all else dev.itemError(k, Rank(dev, Plain(writes), 0, i), item.value)
  {
    errs := errs0;
    for j := 0 to |items|
      invariant |errs| == |writes|
      invariant forall i :: 0 <= i < j ==> errs[valid[i]] == if all.Some? then all else dev.itemError(k, i, items[i])
      invariant forall i :: 0 <= i < |writes| && i !in valid ==> errs[i] == errs0[i]
    {
      errs := errs[valid[j] := if all.Some? then all else dev.itemError(k, j, items[j])];
    }
    forall i | 0 <= i < |writes| && ItemOf(dev, writes[i].write).Success?
      ensures errs[i] == if all.Some? then all
                         else dev.itemError(k, Rank(dev, Plain(writes), 0, i), ItemOf(dev, writes[i].write).value)
    {
      assert At(valid, Rank(dev, Plain(writes), 0, i), i);
    }
  }

  /** writeTagBatch as multi-write k. */
  method WriteTagBatch(dev: Device, k: nat, writes: seq<IndexedWrite>) returns (errs: seq<Option<Error>>)
    ensures |errs| == |writes|
    ensures forall i :: 0 <= i < |writes| ==>
              errs[i] == BatchOutcome(dev, k, Rank(dev, Plain(writes), 0, i), writes[i].write)
    ensures forall i :: 0 <= i < |writes| && errs[i] == None ==>
              && ItemOf(dev, writes[i].write).Success? && dev.attached(k) && dev.requestError(k) == None
              && dev.itemError(k, Rank(dev, Plain(writes), 0, i), ItemOf(dev, writes[i].write).value) == None
    ensures forall i :: 0 <= i < |writes| && ItemOf(dev, writes[i].write).Success? && dev.attached(k) && dev.requestError(k).Some? ==>
              errs[i] == dev.requestError(k)
    ensures forall i :: 0 <= i < |writes| ==> Tells(dev, k, Rank(dev, Plain(writes), 0, i), writes[i].write, errs[i])
  {
    var items, valid;
    errs, items, valid := PrepareItems(dev, writes);
    if |items| == 0 {
      return;
    }
    var all := if !dev.attached(k) then Some(ConnectionClosed) else dev.requestError(k);
    errs := Attribute(dev, k, writes, errs, items, valid, all);
  }

  // ----- splitting the writes -----

  predicate InClass(w: Write, bools: bool) { w.writable && (w.tag.dataType == Bool) == bools }

  /** The indices below n of the writable boolean, or writable non-boolean, writes in order. */
  function Select(writes: seq<Write>, n: nat, bools: bool): seq<nat>
    requires n <= |writes|
  {
    if n == 0 then []
    else if InClass(writes[n - 1], bools)
    then Select(writes, n - 1, bools) + [n - 1]
    else Select(writes, n - 1, bools)
  }

  /** The writes themselves. */
  function Chosen(writes: seq<Write>, n: nat, bools: bool): seq<Write>
    requires n <= |writes|
  {
    if n == 0 then []
    else if InClass(writes[n - 1], bools) then Chosen(writes, n - 1, bools) + [writes[n - 1]]
    else Chosen(writes, n - 1, bools)
  }

  lemma {:induction false} ChosenAreSelected(writes: seq<Write>, n: nat, bools: bool)
    requires n <= |writes|
    ensures var chosen, selected := Chosen(writes, n, bools), Select(writes, n, bools);
            |chosen| == |selected| && forall r :: 0 <= r < |selected| ==> selected[r] < n && chosen[r] == writes[selected[r]]
  {
    hide InClass;
    if n > 0 {
      ChosenAreSelected(writes, n - 1, bools);
      var chosen, selected := Chosen(writes, n, bools), Select(writes, n, bools);
      var m := |Select(writes, n - 1, bools)|;
      forall r | 0 <= r < |selected| ensures selected[r] < n && chosen[r] == writes[selected[r]] {
        if r < m {
          assert selected[r] == Select(writes, n - 1, bools)[r] && chosen[r] == Chosen(writes, n - 1, bools)[r];
        }
      }
    }
  }

  lemma {:induction false} SelectSound(writes: seq<Write>, n: nat, bools: bool, r: nat)
    requires n <= |writes| && r < |Select(writes, n, bools)|
    ensures var i := Select(writes, n, bools)[r];
            i < n && InClass(writes[i], bools)
    decreases n
  {
    if n > 0 && r < |Select(writes, n - 1, bools)| {
      SelectSound(writes, n - 1, bools, r);
    }
  }

  lemma {:induction false} SelectOrdered(writes: seq<Write>, n: nat, bools: bool, q: nat, r: nat)
    requires n <= |writes| && q < r < |Select(writes, n, bools)|
    ensures Select(writes, n, bools)[q] < Select(writes, n, bools)[r]
    decreases n
  {
    if n > 0 {
      if r < |Select(writes, n - 1, bools)| {
        SelectOrdered(writes, n - 1, bools, q, r);
      } else {
        SelectSound(writes, n - 1, bools, q);
      }
    }
  }

  lemma {:induction false} SelectComplete(writes: seq<Write>, n: nat, i: nat)
    requires i < n <= |writes| && writes[i].writable
    ensures i in Select(writes, n, writes[i].tag.dataType == Bool)
  {
    if i < n - 1 {
      SelectComplete(writes, n - 1, i);
    }
  }

  /** The two lists hold every writable write at exactly one place, in the order given. */
  lemma EveryWriteOnce(writes: seq<Write>)
    ensures forall i :: 0 <= i < |writes| && writes[i].writable ==>
              i in Select(writes, |writes|, writes[i].tag.dataType == Bool)
    ensures forall bools, r :: 0 <= r < |Select(writes, |writes|, bools)| ==>
              var i := Select(writes, |writes|, bools)[r];
              i < |writes| && InClass(writes[i], bools)
    ensures forall bools, q, r :: 0 <= q < r < |Select(writes, |writes|, bools)| ==>
              Select(writes, |writes|, bools)[q] < Select(writes, |writes|, bools)[r]
  {
    forall i | 0 <= i < |writes| && writes[i].writable
      ensures i in Select(writes, |writes|, writes[i].tag.dataType == Bool)
    {
      SelectComplete(writes, |writes|, i);
    }
    forall bools, r | 0 <= r < |Select(writes, |writes|, bools)|
      ensures var i := Select(writes, |writes|, bools)[r];
              i < |writes| && InClass(writes[i], bools)
    {
      SelectSound(writes, |writes|, bools, r);
    }
    forall bools, q, r | 0 <= q < r < |Select(writes, |writes|, bools)|
      ensures Select(writes, |writes|, bools)[q] < Select(writes, |writes|, bools)[r]
    {
      SelectOrdered(writes, |writes|, bools, q, r);
    }
  }

  /** The list holds the selected writes, each with its index. */
  ghost predicate Indexed(list: seq<IndexedWrite>, writes: seq<Write>, indices: seq<nat>) {
    && |list| == |indices|
    && forall r :: 0 <= r < |list| ==> indices[r] < |writes| && list[r] == IndexedWrite(indices[r], writes[indices[r]])
  }

  method Separate(writes: seq<Write>) returns (errs: seq<Option<Error>>, batchable: seq<IndexedWrite>, bools: seq<IndexedWrite>)
    ensures |errs| == |writes|
    ensures forall i :: 0 <= i < |writes| ==> errs[i] == if writes[i].writable then None else Some(TagNotWritable)
    ensures Indexed(batchable, writes, Select(writes, |writes|, false))
    ensures Indexed(bools, writes, Select(writes, |writes|, true))
  {
    errs, batchable, bools := [], [], [];
    assert Indexed([], writes, Select(writes, 0, false)) && Indexed([], writes, Select(writes, 0, true));
    hide Indexed, Select;
    for i := 0 to |writes|
      invariant |errs| == i
      invariant forall j :: 0 <= j < i ==> errs[j] == if writes[j].writable then None else Some(TagNotWritable)
      invariant Indexed(batchable, writes, Select(writes, i, false))
      invariant Indexed(bools, writes, Select(writes, i, true))
    {
      errs := errs + [if writes[i].writable then None else Some(TagNotWritable)];
      batchable := AddIf(batchable, writes, i, false);
      bools := AddIf(bools, writes, i, true);
    }
  }

  /** Appends write i to the list it belongs on, if that is this one. */
  method AddIf(list0: seq<IndexedWrite>, writes: seq<Write>, i: nat, bools: bool) returns (list: seq<IndexedWrite>)
    requires i < |writes| && Indexed(list0, writes, Select(writes, i, bools))
    ensures Indexed(list, writes, Select(writes, i + 1, bools))
  {
    if InClass(writes[i], bools) {
      list := list0 + [IndexedWrite(i, writes[i])];
    } else {
      list := list0;
    }
  }

  // ----- the whole write -----

  /** The context was found done at one of the first n polls. */
  ghost predicate StoppedBy(dev: Device, n: nat) {
    exists k :: 0 <= k < n && dev.cancelled(k)
  }

  /** The number of requests for n items, 20 to a request. */
  function Chunks(n: nat): (c: nat)
    ensures 20 * c >= n && (c > 0 ==> 20 * (c - 1) < n)
  {
    (n + MAX_ITEMS - 1) / MAX_ITEMS
  }

  /** The outcome of the r-th batchable write. */
  ghost function ChunkOutcome(dev: Device, ws: seq<Write>, r: nat): Option<Error>
    requires r < |ws|
  {
    var k := r / MAX_ITEMS;
    if StoppedBy(dev, k + 1) then Some(Cancelled) else BatchOutcome(dev, k, Rank(dev, ws, MAX_ITEMS * k, r), ws[r])
  }

  /** The outcome of the q-th boolean write, after the given number of chunks. */
  ghost function BoolOutcome(dev: Device, chunks: nat, q: nat, w: Write): Option<Error> {
    if StoppedBy(dev, chunks) || dev.cancelled(chunks + q) then Some(Cancelled) else dev.writeBool(q, w)
  }

  /** The list of one class of writes: complete, without repetition, each with its own index. */
  ghost predicate ClassList(list: seq<IndexedWrite>, writes: seq<Write>, bools: bool) {
    && (forall r :: 0 <= r < |list| ==> list[r].origIndex < |writes|)
    && (forall r :: 0 <= r < |list| ==> InClass(list[r].write, bools) && list[r].write == writes[list[r].origIndex])
    && (forall q, r :: 0 <= q < r < |list| ==> list[q].origIndex != list[r].origIndex)
  }

  lemma SelectedIsClass(list: seq<IndexedWrite>, writes: seq<Write>, bools: bool)
    requires Indexed(list, writes, Select(writes, |writes|, bools))
    ensures ClassList(list, writes, bools)
  {
    EveryWriteOnce(writes);
  }

  /** Records results for positions lo, lo + 1, ... of the list; nothing else changes. */
  method Record(writes: seq<Write>, ghost bools: bool, errs0: seq<Option<Error>>, list: seq<IndexedWrite>, lo: nat, results: seq<Option<Error>>)
    returns (errs: seq<Option<Error>>)
    requires |errs0| == |writes| && ClassList(list, writes, bools) && lo + |results| <= |list|
    ensures |errs| == |errs0|
    ensures forall r :: 0 <= r < |list| ==>
              errs[list[r].origIndex] == if lo <= r < lo + |results| then results[r - lo] else errs0[list[r].origIndex]
    ensures forall i :: 0 <= i < |writes| && !InClass(writes[i], bools) ==> errs[i] == errs0[i]
  {
    errs := errs0;
    for j := 0 to |results|
      invariant |errs| == |errs0|
      invariant forall r :: 0 <= r < |list| ==>
                  errs[list[r].origIndex] == if lo <= r < lo + j then results[r - lo] else errs0[list[r].origIndex]
      invariant forall i :: 0 <= i < |writes| && !InClass(writes[i], bools) ==> errs[i] == errs0[i]
    {
      errs := errs[list[lo + j].origIndex := results[j]];
    }
  }

  /** All multi-writes, until done or until the context is found done. */
  method WriteBatches(dev: Device, writes: seq<Write>, errs0: seq<Option<Error>>, list: seq<IndexedWrite>)
    returns (errs: seq<Option<Error>>, stopped: bool)
    requires |errs0| == |writes| && ClassList(list, writes, false)
    ensures |errs| == |writes| && (stopped <==> StoppedBy(dev, Chunks(|list|)))
    ensures forall r :: 0 <= r < |list| ==> errs[list[r].origIndex] == ChunkOutcome(dev, Plain(list), r)
    ensures forall i :: 0 <= i < |writes| && !InClass(writes[i], false) ==> errs[i] == errs0[i]
  {
    hide BatchOutcome, InClass, Plain, Rank;
    errs := errs0;
    var i, k := 0, 0;
    while i < |list|
      invariant 0 <= i <= |list| && |errs| == |writes| && !StoppedBy(dev, k)
      invariant if i < |list| then i == MAX_ITEMS * k else k == Chunks(|list|)
      invariant forall r :: 0 <= r < i ==> errs[list[r].origIndex] == ChunkOutcome(dev, Plain(list), r)
      invariant forall i :: 0 <= i < |writes| && !InClass(writes[i], false) ==> errs[i] == errs0[i]
    {
      var end := if i + MAX_ITEMS > |list| then |list| else i + MAX_ITEMS;
      if dev.cancelled(k) {
        errs := Record(writes, false, errs, list, i, seq(|list| - i, _ => Some(Cancelled)));
        StoppedFrom(dev, k, i, |list|);
        return errs, true;
      }
      var results := WriteTagBatch(dev, k, list[i..end]);
      ChunkResults(dev, k, list, i, end, results);
      errs := Record(writes, false, errs, list, i, results);
      i, k := end, k + 1;
    }
    stopped := false;
  }

  lemma {:induction false} RankInSlice(dev: Device, list: seq<IndexedWrite>, lo: nat, hi: nat, j: nat)
    requires lo + j <= hi <= |list|
    ensures Rank(dev, Plain(list[lo..hi]), 0, j) == Rank(dev, Plain(list), lo, lo + j)
  {
    if j > 0 {
      RankInSlice(dev, list, lo, hi, j - 1);
    }
  }

  /** The results of a chunk are the outcomes of its writes. */
  lemma ChunkResults(dev: Device, k: nat, list: seq<IndexedWrite>, lo: nat, hi: nat, results: seq<Option<Error>>)
    requires lo == MAX_ITEMS * k && lo <= hi <= |list| && hi <= lo + MAX_ITEMS && !StoppedBy(dev, k + 1)
    requires |results| == hi - lo
    requires forall j :: 0 <= j < |results| ==>
               results[j] == BatchOutcome(dev, k, Rank(dev, Plain(list[lo..hi]), 0, j), list[lo..hi][j].write)
    ensures forall r :: lo <= r < hi ==> results[r - lo] == ChunkOutcome(dev, Plain(list), r)
  {
    hide BatchOutcome, Rank, StoppedBy;
    forall r | lo <= r < hi ensures results[r - lo] == ChunkOutcome(dev, Plain(list), r) {
      RankInSlice(dev, list, lo, hi, r - lo);
      assert r / MAX_ITEMS == k;
    }
  }

  lemma StoppedFrom(dev: Device, k: nat, i: nat, n: nat)
    requires dev.cancelled(k) && i == MAX_ITEMS * k && i < n
    ensures forall r: nat :: i <= r ==> StoppedBy(dev, r / MAX_ITEMS + 1)
    ensures StoppedBy(dev, Chunks(n))
  {
    forall r: nat | i <= r ensures StoppedBy(dev, r / MAX_ITEMS + 1) {
      assert k <= r / MAX_ITEMS;
    }
    assert k < Chunks(n);
  }

  /** All boolean writes, one by one. */
  method WriteBools(dev: Device, writes: seq<Write>, errs0: seq<Option<Error>>, list: seq<IndexedWrite>, chunks: nat)
    returns (errs: seq<Option<Error>>)
    requires |errs0| == |writes| && ClassList(list, writes, true) && !StoppedBy(dev, chunks)
    ensures |errs| == |writes|
    ensures forall q :: 0 <= q < |list| ==> errs[list[q].origIndex] == BoolOutcome(dev, chunks, q, list[q].write)
    ensures forall i :: 0 <= i < |writes| && !InClass(writes[i], true) ==> errs[i] == errs0[i]
  {
    errs := errs0;
    for q := 0 to |list|
      invariant |errs| == |writes|
      invariant forall r :: 0 <= r < q ==> errs[list[r].origIndex] == BoolOutcome(dev, chunks, r, list[r].write)
      invariant forall i :: 0 <= i < |writes| && !InClass(writes[i], true) ==> errs[i] == errs0[i]
    {
      var outcome := if dev.cancelled(chunks + q) then Some(Cancelled) else dev.writeBool(q, list[q].write);
      errs := errs[list[q].origIndex := outcome];
    }
  }

  /** What WriteTags reports for write i, computed from the list of writes alone: its rank among the
      writes of its class fixes the request it goes into and the context polls it depends on. */
  ghost predicate Reported(dev: Device, writes: seq<Write>, errs: seq<Option<Error>>)
    requires |errs| == |writes|
  {
    var batchable, bools := Select(writes, |writes|, false), Select(writes, |writes|, true);
    var sent := Chosen(writes, |writes|, false);
    && |sent| == |batchable|
    && (forall i :: 0 <= i < |writes| && !writes[i].writable ==> errs[i] == Some(TagNotWritable))
    && (forall r :: 0 <= r < |batchable| ==>
          batchable[r] < |writes| && errs[batchable[r]] == ChunkOutcome(dev, sent, r))
    && (forall q :: 0 <= q < |bools| ==>
          bools[q] < |writes| && errs[bools[q]] == BoolOutcome(dev, Chunks(|batchable|), q, writes[bools[q]]))
  }

  lemma PlainIsChosen(list: seq<IndexedWrite>, writes: seq<Write>, bools: bool)
    requires Indexed(list, writes, Select(writes, |writes|, bools))
    ensures Plain(list) == Chosen(writes, |writes|, bools)
  {
    ChosenAreSelected(writes, |writes|, bools);
  }

  method WriteTags(dev: Device, connected: bool, writes: seq<Write>) returns (errs: seq<Option<Error>>)
    ensures |errs| == |writes|
    ensures !connected ==> forall i :: 0 <= i < |writes| ==> errs[i] == Some(ConnectionClosed)
    ensures connected ==> Reported(dev, writes, errs)
  {
    if !connected {
      return seq(|writes|, _ => Some(ConnectionClosed));
    }
    var batchable, bools, stopped;
    errs, batchable, bools := Separate(writes);
    PlainIsChosen(batchable, writes, false);
    SelectedIsClass(batchable, writes, false);
    SelectedIsClass(bools, writes, true);
    errs, stopped := WriteBatches(dev, writes, errs, batchable);
    if stopped {
      errs := Record(writes, true, errs, bools, 0, seq(|bools|, _ => Some(Cancelled)));
    } else {
      errs := WriteBools(dev, writes, errs, bools, Chunks(|batchable|));
    }
  }

  /** The report leaves no entry open. */
  lemma ReportIsComplete(dev: Device, writes: seq<Write>, errs: seq<Option<Error>>, errs': seq<Option<Error>>)
    requires |errs| == |errs'| == |writes| && Reported(dev, writes, errs) && Reported(dev, writes, errs')
    ensures errs == errs'
  {
    EveryWriteOnce(writes);
    forall i | 0 <= i < |writes| ensures errs[i] == errs'[i] {
      if writes[i].writable {
        var selected := Select(writes, |writes|, writes[i].tag.dataType == Bool);
        var r :| 0 <= r < |selected| && selected[r] == i;
      }
    }
  }

  /** In terms of the device and the writes: the r-th batchable write, which is in request r / 20, is cancelled
      exactly if the context was found done before that request, and otherwise tells what that request and the
      item at its own place came to; a boolean write is cancelled by a poll before all booleans or by its own. */
  lemma OutcomesMean(dev: Device, writes: seq<Write>, errs: seq<Option<Error>>)
    requires |errs| == |writes| && Reported(dev, writes, errs)
    ensures |Select(writes, |writes|, false)| == |Chosen(writes, |writes|, false)|
    ensures forall r :: 0 <= r < |Select(writes, |writes|, false)| ==>
              BatchedMeans(dev, writes, errs, Select(writes, |writes|, false), r)
    ensures forall q :: 0 <= q < |Select(writes, |writes|, true)| ==>
              BoolMeans(dev, writes, errs, Chunks(|Select(writes, |writes|, false)|), Select(writes, |writes|, true), q)
  {
    var batchable, bools, sent := Select(writes, |writes|, false), Select(writes, |writes|, true), Chosen(writes, |writes|, false);
    ChosenAreSelected(writes, |writes|, false);
    hide Select, Chosen, Rank, ItemOf;
    forall r | 0 <= r < |batchable| ensures BatchedMeans(dev, writes, errs, batchable, r) {
      assert errs[batchable[r]] == ChunkOutcome(dev, sent, r) && sent[r] == writes[batchable[r]];
      OutcomeTells(dev, r / 20, Rank(dev, sent, 20 * (r / 20), r), sent[r]);
    }
    forall q | 0 <= q < |bools| ensures BoolMeans(dev, writes, errs, Chunks(|batchable|), bools, q) {
      assert errs[bools[q]] == BoolOutcome(dev, Chunks(|batchable|), q, writes[bools[q]]);
    }
  }

  lemma OutcomeTells(dev: Device, k: nat, place: nat, w: Write)
    ensures Tells(dev, k, place, w, BatchOutcome(dev, k, place, w))
  {
  }

  ghost predicate BatchedMeans(dev: Device, writes: seq<Write>, errs: seq<Option<Error>>, batchable: seq<nat>, r: nat)
    requires |errs| == |writes| && r < |batchable| && |batchable| == |Chosen(writes, |writes|, false)|
  {
    var k, i := r / 20, batchable[r];
    && i < |writes|
    && (if exists j :: 0 <= j <= k && dev.cancelled(j) then errs[i] == Some(Cancelled)
        else Tells(dev, k, Rank(dev, Chosen(writes, |writes|, false), 20 * k, r), writes[i], errs[i]))
  }

  ghost predicate BoolMeans(dev: Device, writes: seq<Write>, errs: seq<Option<Error>>, chunks: nat, bools: seq<nat>, q: nat)
    requires |errs| == |writes| && q < |bools|
  {
    var i := bools[q];
    && i < |writes|
    && errs[i] == if (exists j :: 0 <= j < chunks && dev.cancelled(j)) || dev.cancelled(chunks + q) then Some(Cancelled)
                  else dev.writeBool(q, writes[i])
  }

  // ----- a single boolean -----

  /** The modify step of writeBoolWithRMW: the addressed bit takes the new value, its neighbours in
      the byte keep theirs. */
  method ModifyBit(current: byte, bit: nat, b: bool) returns (r: byte)
    ensures forall k: nat :: k < 8 ==> (Bit(r, k) <==> if k == bit then b else Bit(current, k))
  {
    if bit >= 8 {
      return current;
    }
    assert Pow2(4) == 16 && Pow2(8) == 256;
    forall k: nat ensures Bit(WithBit(current, bit), k) <==> (k == bit || Bit(current, k)) {
      SetBit(current, bit, k);
    }
    forall k: nat ensures Bit(WithoutBit(current, bit), k) <==> (k != bit && Bit(current, k)) {
      ClearBit(current, bit, k);
    }
    ClearBit(current, bit, 0);
    SetBitWidth(current, bit, 8);
    r := if b then WithBit(current, bit) else WithoutBit(current, bit);
  }
}
