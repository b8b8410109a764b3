/** The publisher's bounded record of recently published topics. */
module TopicTracker {
  import opened Sorting

  // Topics are only ever compared.
  type Topic = nat

  datatype Publish = Publish(topic: Topic, time: int, bytes: nat)

  datatype TopicStat = TopicStat(count: nat, last: int, bytes: nat)

  datatype Entry = Entry(topic: Topic, stat: TopicStat)

  const MAX_TRACKED := 10000
  const EVICTED := MAX_TRACKED / 10

  // ----- the unbounded reference: topics of a history, most recent first -----

  function IndexOf(s: seq<Topic>, t: Topic): (i: nat)
    requires t in s
    ensures i < |s| && s[i] == t && forall j :: 0 <= j < i ==> s[j] != t
  {
    if s[0] == t then 0 else 1 + IndexOf(s[1..], t)
  }

  function Without(s: seq<Topic>, t: Topic): seq<Topic> {
    if t in s then s[..IndexOf(s, t)] + s[IndexOf(s, t) + 1..] else s
  }

  /** The topics of a history, the one published last first, each once. */
  function MostRecent(h: seq<Publish>): seq<Topic> {
    if h == [] then []
    else var t := h[|h| - 1].topic; [t] + Without(MostRecent(h[..|h| - 1]), t)
  }

  /** The last publish to a topic; a dummy for a topic never published. */
  ghost function Latest(h: seq<Publish>, t: Topic): Publish {
    if h == [] then Publish(t, 0, 0)
    else if h[|h| - 1].topic == t then h[|h| - 1] else Latest(h[..|h| - 1], t)
  }

  ghost function TimesPublished(h: seq<Publish>, t: Topic): nat {
    if h == [] then 0 else TimesPublished(h[..|h| - 1], t) + if h[|h| - 1].topic == t then 1 else 0
  }

  ghost predicate Increasing(h: seq<Publish>) {
    forall i, j :: 0 <= i < j < |h| ==> h[i].time < h[j].time
  }

  ghost predicate NoDuplicates<T>(s: seq<T>) {
    forall i, j :: 0 <= i < j < |s| ==> s[i] != s[j]
  }

  /** No repetition, each topic published after every topic behind it, all of them by `now`. */
  ghost predicate Ranked(h: seq<Publish>, r: seq<Topic>, now: int) {
    && NoDuplicates(r)
    && (forall i :: 0 <= i < |r| ==> Latest(h, r[i]).time <= now)
    && (forall i, j :: 0 <= i < j < |r| ==> Latest(h, r[i]).time > Latest(h, r[j]).time)
  }

  lemma HistoryNext(h: seq<Publish>, p: Publish)
    ensures forall t :: Latest(h + [p], t) == if t == p.topic then p else Latest(h, t)
    ensures forall t :: TimesPublished(h + [p], t) == TimesPublished(h, t) + if t == p.topic then 1 else 0
    ensures MostRecent(h + [p]) == [p.topic] + Without(MostRecent(h), p.topic)
  {
    assert (h + [p])[..|h|] == h;
  }

  /** Publishing moves the topic to the front. */
  lemma RankedNext(h: seq<Publish>, p: Publish, r: seq<Topic>, now: int)
    requires Ranked(h, r, now) && now < p.time
    ensures Ranked(h + [p], [p.topic] + Without(r, p.topic), p.time)
  {
    var rest := Without(r, p.topic);
    HistoryNext(h, p);
    WithoutElements(r, p.topic);
    forall i | 0 <= i < |rest| ensures rest[i] != p.topic && Latest(h, rest[i]).time <= now {
      assert rest[i] in r;
    }
    forall i, j | 0 <= i < j < |rest| ensures Latest(h, rest[i]).time > Latest(h, rest[j]).time {
      var x, y := WithoutOrder(r, p.topic, i, j);
    }
  }

  lemma WithoutElements(s: seq<Topic>, t: Topic)
    requires NoDuplicates(s)
    ensures forall x :: x in Without(s, t) <==> x in s && x != t
    ensures |Without(s, t)| == if t in s then |s| - 1 else |s|
  {
    if t in s {
      var i := IndexOf(s, t);
      assert s == s[..i] + [s[i]] + s[i + 1..];
    }
  }

  lemma WithoutOrder(s: seq<Topic>, t: Topic, i: nat, j: nat) returns (x: nat, y: nat)
    requires i < j < |Without(s, t)|
    ensures x < y < |s| && Without(s, t)[i] == s[x] && Without(s, t)[j] == s[y]
  {
    if t in s {
      var k := IndexOf(s, t);
      x, y := if i < k then i else i + 1, if j < k then j else j + 1;
    } else {
      x, y := i, j;
    }
  }

  lemma {:induction false} MostRecentIsRanked(h: seq<Publish>)
    requires Increasing(h) && h != []
    ensures Ranked(h, MostRecent(h), h[|h| - 1].time)
  {
    var n := |h| - 1;
    var before := h[..n];
    assert h == before + [h[n]];
    HistoryNext(before, h[n]);
    if n > 0 {
      MostRecentIsRanked(before);
      RankedNext(before, h[n], MostRecent(before), h[n - 1].time);
    }
  }

  // ----- the bounded tracker -----

  type Stats = map<Topic, TopicStat>

  /** Exactly the |stats| most recent topics are tracked. */
  ghost predicate KeysMatch(stats: Stats, r: seq<Topic>) {
    |stats| <= |r| && forall t :: t in stats <==> Within(r, |stats|, t)
  }

  ghost predicate StatOk(h: seq<Publish>, t: Topic, s: TopicStat) {
    s.last == Latest(h, t).time && s.bytes == Latest(h, t).bytes && 1 <= s.count <= TimesPublished(h, t)
  }

  ghost predicate StatsOk(h: seq<Publish>, stats: Stats) {
    forall t :: t in stats ==> StatOk(h, t, stats[t])
  }

  /** At least this many topics are tracked, or all of them. */
  const KEPT := MAX_TRACKED - EVICTED + 1

  ghost predicate SizeOk(stats: Stats, r: seq<Topic>) {
    && |stats| <= MAX_TRACKED
    && (|stats| >= KEPT || |stats| == |r|)
    && (|r| <= MAX_TRACKED ==> |stats| == |r|)
  }

  /** While no topic had to be forgotten, every publish is counted. */
  ghost predicate CountsExact(stats: Stats, h: seq<Publish>) {
    |MostRecent(h)| <= MAX_TRACKED ==> forall t :: t in stats ==> stats[t].count == TimesPublished(h, t)
  }

  ghost predicate Tracks(stats: Stats, h: seq<Publish>) {
    && KeysMatch(stats, MostRecent(h)) && StatsOk(h, stats)
    && SizeOk(stats, MostRecent(h)) && CountsExact(stats, h)
  }

  lemma {:induction false} PublishedTopics(h: seq<Publish>, t: Topic)
    ensures t in MostRecent(h) <==> TimesPublished(h, t) > 0
  {
    if h != [] {
      var n := |h| - 1;
      PublishedTopics(h[..n], t);
      if t != h[n].topic {
        InWithout(MostRecent(h[..n]), h[n].topic, t);
      }
    }
  }

  /** Where every topic is found after one moved to the front. */
  lemma MoveToFront(r: seq<Topic>, t: Topic, x: Topic)
    ensures var r' := [t] + Without(r, t);
            && |r'| == (if t in r then |r| else |r| + 1)
            && t in r' && IndexOf(r', t) == 0
            && (x != t ==> (x in r' <==> x in r))
            && (x != t && x in r ==>
                  IndexOf(r', x) == if t in r && IndexOf(r, t) < IndexOf(r, x) then IndexOf(r, x) else IndexOf(r, x) + 1)
  {
    var rest := Without(r, t);
    if x != t {
      InWithout(r, t, x);
      if x in r {
        FrontIndex(r, t, x);
      }
    }
  }

  lemma FrontIndex(r: seq<Topic>, t: Topic, x: Topic)
    requires x != t && x in r
    ensures x in [t] + Without(r, t)
    ensures IndexOf([t] + Without(r, t), x) ==
            if t in r && IndexOf(r, t) < IndexOf(r, x) then IndexOf(r, x) else IndexOf(r, x) + 1
  {
    hide Without;
    IndexWithout(r, t, x);
    assert ([t] + Without(r, t))[1..] == Without(r, t);
  }

  lemma WithoutStep(s: seq<Topic>, t: Topic)
    requires s != []
    ensures Without(s, t) == if s[0] == t then s[1..] else [s[0]] + Without(s[1..], t)
  {
  }

  lemma {:induction false} IndexWithout(s: seq<Topic>, t: Topic, x: Topic)
    requires x != t && x in s
    ensures x in Without(s, t)
    ensures IndexOf(Without(s, t), x) ==
            if t in s && IndexOf(s, t) < IndexOf(s, x) then IndexOf(s, x) - 1 else IndexOf(s, x)
  {
    hide Without;
    WithoutStep(s, t);
    if s[0] != t && s[0] != x {
      IndexWithout(s[1..], t, x);
      assert ([s[0]] + Without(s[1..], t))[1..] == Without(s[1..], t);
    }
  }

  lemma InWithout(s: seq<Topic>, t: Topic, x: Topic)
    requires x != t
    ensures x in Without(s, t) <==> x in s
  {
    if t in s {
      var i := IndexOf(s, t);
      assert s == s[..i] + [t] + s[i + 1..];
    }
  }

  lemma RankedAlways(h: seq<Publish>)
    requires Increasing(h)
    ensures ByRecency(h, MostRecent(h))
  {
    if h != [] {
      MostRecentIsRanked(h);
    }
  }

  /** A publish to a tracked topic. */
  lemma TrackKnown(stats: Stats, h: seq<Publish>, p: Publish)
    requires Tracks(stats, h) && p.topic in stats
    ensures Tracks(stats[p.topic := TopicStat(stats[p.topic].count + 1, p.time, p.bytes)], h + [p])
  {
    var s := TopicStat(stats[p.topic].count + 1, p.time, p.bytes);
    hide Without, KeysMatch, MostRecent, StatsOk, CountsExact;
    HistoryNext(h, p);
    KeyKept(stats, p.topic, s);
    KeysAfterKnown(stats, stats[p.topic := s], MostRecent(h), p.topic);
    StatsAfterKnown(stats, h, p);
    CountsAfterKnown(stats, h, p);
  }

  lemma KeyKept(stats: Stats, t: Topic, s: TopicStat)
    requires t in stats
    ensures |stats[t := s]| == |stats| && stats[t := s].Keys == stats.Keys
  {
    assert stats[t := s].Keys == stats.Keys;
    assert |stats[t := s]| == |stats[t := s].Keys| && |stats| == |stats.Keys|;
  }

  lemma StatsAfterKnown(stats: Stats, h: seq<Publish>, p: Publish)
    requires StatsOk(h, stats) && p.topic in stats
    ensures StatsOk(h + [p], stats[p.topic := TopicStat(stats[p.topic].count + 1, p.time, p.bytes)])
  {
    hide MostRecent;
    HistoryNext(h, p);
    var stats' := stats[p.topic := TopicStat(stats[p.topic].count + 1, p.time, p.bytes)];
    forall t | t in stats' ensures StatOk(h + [p], t, stats'[t]) {
      assert t in stats && StatOk(h, t, stats[t]);
    }
  }

  lemma CountsAfterKnown(stats: Stats, h: seq<Publish>, p: Publish)
    requires KeysMatch(stats, MostRecent(h)) && p.topic in stats && CountsExact(stats, h)
    ensures CountsExact(stats[p.topic := TopicStat(stats[p.topic].count + 1, p.time, p.bytes)], h + [p])
  {
    hide Without, MostRecent;
    HistoryNext(h, p);
    assert Within(MostRecent(h), |stats|, p.topic);
    MoveToFront(MostRecent(h), p.topic, p.topic);
  }

  /** The topic is among the m most recent ones. */
  predicate Within(r: seq<Topic>, m: nat, x: Topic) { x in r && IndexOf(r, x) < m }

  lemma FrontOfKnown(r: seq<Topic>, t: Topic, m: nat, x: Topic)
    requires Within(r, m, t)
    ensures Within([t] + Without(r, t), m, x) <==> Within(r, m, x)
  {
    hide Without;
    MoveToFront(r, t, x);
  }

  lemma FrontOfNew(r: seq<Topic>, t: Topic, m: nat, x: Topic)
    requires !Within(r, m, t) && m <= |r|
    ensures Within([t] + Without(r, t), m + 1, x) <==> Within(r, m, x) || x == t
  {
    hide Without;
    MoveToFront(r, t, x);
  }

  lemma KeysAfterKnown(stats: Stats, stats': Stats, r: seq<Topic>, t: Topic)
    requires KeysMatch(stats, r) && t in stats && stats'.Keys == stats.Keys && |stats'| == |stats|
    ensures KeysMatch(stats', [t] + Without(r, t)) && |[t] + Without(r, t)| == |r|
  {
    hide Without;
    MoveToFront(r, t, t);
    var r' := [t] + Without(r, t);
    forall x ensures x in stats' <==> Within(r', |stats'|, x) {
      assert x in stats' <==> x in stats;
      FrontOfKnown(r, t, |stats|, x);
    }
  }

  lemma KeysAfterNew(stats: Stats, stats': Stats, r: seq<Topic>, t: Topic)
    requires KeysMatch(stats, r) && t !in stats && stats'.Keys == stats.Keys + {t} && |stats'| == |stats| + 1
    ensures KeysMatch(stats', [t] + Without(r, t))
    ensures |[t] + Without(r, t)| <= |r| + 1 && (|stats| == |r| ==> |[t] + Without(r, t)| == |stats'|)
  {
    hide Without;
    MoveToFront(r, t, t);
    var r' := [t] + Without(r, t);
    forall x ensures x in stats' <==> Within(r', |stats'|, x) {
      assert x in stats' <==> x in stats || x == t;
      FrontOfNew(r, t, |stats|, x);
    }
  }

  lemma AllTracked(stats: Stats, r: seq<Topic>, t: Topic)
    requires KeysMatch(stats, r) && |stats| == |r| && t !in stats
    ensures t !in r
  {
    assert !Within(r, |stats|, t);
  }

  /** A new topic for a full tracker, or after one was forgotten, is more than fits. */
  lemma TooMany(stats: Stats, h: seq<Publish>, p: Publish)
    requires Tracks(stats, h) && p.topic !in stats
    ensures |stats| >= MAX_TRACKED || |stats| != |MostRecent(h)| ==> |MostRecent(h + [p])| > MAX_TRACKED
  {
    hide Without;
    HistoryNext(h, p);
    MoveToFront(MostRecent(h), p.topic, p.topic);
    if |MostRecent(h)| == MAX_TRACKED {
      AllTracked(stats, MostRecent(h), p.topic);
    }
  }

  /** A publish to a topic that is not tracked, with room for it. */
  lemma TrackNew(stats: Stats, h: seq<Publish>, p: Publish)
    requires KeysMatch(stats, MostRecent(h)) && StatsOk(h, stats) && p.topic !in stats
    requires |stats| < MAX_TRACKED && CountsExact(stats, h)
    requires |stats| == |MostRecent(h)| || (|stats| + 1 >= KEPT && |MostRecent(h + [p])| > MAX_TRACKED)
    ensures Tracks(stats[p.topic := TopicStat(1, p.time, p.bytes)], h + [p])
  {
    var stats' := stats[p.topic := TopicStat(1, p.time, p.bytes)];
    hide Without, KeysMatch, MostRecent, StatsOk, CountsExact;
    HistoryNext(h, p);
    KeyAdded(stats, p.topic, TopicStat(1, p.time, p.bytes));
    KeysAfterNew(stats, stats', MostRecent(h), p.topic);
    StatsAfterNew(stats, h, p);
    CountsAfterNew(stats, h, p);
  }

  lemma StatsAfterNew(stats: Stats, h: seq<Publish>, p: Publish)
    requires StatsOk(h, stats) && p.topic !in stats
    ensures StatsOk(h + [p], stats[p.topic := TopicStat(1, p.time, p.bytes)])
  {
    hide MostRecent;
    HistoryNext(h, p);
    var stats' := stats[p.topic := TopicStat(1, p.time, p.bytes)];
    forall t | t in stats' ensures StatOk(h + [p], t, stats'[t]) {
      assert t != p.topic ==> StatOk(h, t, stats[t]);
    }
  }

  lemma CountsAfterNew(stats: Stats, h: seq<Publish>, p: Publish)
    requires KeysMatch(stats, MostRecent(h)) && p.topic !in stats && CountsExact(stats, h)
    requires |stats| == |MostRecent(h)| || |MostRecent(h + [p])| > MAX_TRACKED
    ensures CountsExact(stats[p.topic := TopicStat(1, p.time, p.bytes)], h + [p])
  {
    hide Without, MostRecent, KeysMatch;
    HistoryNext(h, p);
    if |stats| == |MostRecent(h)| {
      AllTracked(stats, MostRecent(h), p.topic);
      PublishedTopics(h, p.topic);
    }
    MoveToFront(MostRecent(h), p.topic, p.topic);
  }

  // ----- listing the tracked topics by recency -----

  ghost predicate EntryOf(stats: Stats, e: Entry) { e.topic in stats && stats[e.topic] == e.stat }

  /** The tracked topics with their statistics, in any order. */
  method Entries(stats: Stats) returns (s: seq<Entry>)
    ensures NoDuplicates(s) && forall e :: e in s <==> EntryOf(stats, e)
  {
    s := [];
    var todo := stats.Keys;
    while todo != {}
      invariant todo <= stats.Keys && NoDuplicates(s)
      invariant forall e :: e in s <==> EntryOf(stats, e) && e.topic !in todo
      decreases todo
    {
      var t :| t in todo;
      s, todo := s + [Entry(t, stats[t])], todo - {t};
    }
  }

  /** The key by which the source sorts: time, ascending to evict and descending to report. */
  function SortKey(oldestFirst: bool): Entry -> int {
    (e: Entry) => if oldestFirst then e.stat.last else -e.stat.last
  }

  /** Position i of the arrangement of m topics. */
  function Position(m: nat, i: nat, oldestFirst: bool): nat
    requires i < m
  {
    if oldestFirst then m - 1 - i else i
  }

  lemma TrackedAt(stats: Stats, r: seq<Topic>, i: nat)
    requires KeysMatch(stats, r) && NoDuplicates(r) && i < |stats|
    ensures r[i] in stats && IndexOf(r, r[i]) == i
  {
    assert Within(r, |stats|, r[i]);
  }

  /** s lists the tracked topics by recency. */
  ghost predicate Arranged(s: seq<Entry>, stats: Stats, r: seq<Topic>, oldestFirst: bool) {
    && |s| == |stats| <= |r|
    && forall i :: 0 <= i < |s| ==> s[i].topic == r[Position(|s|, i, oldestFirst)] && EntryOf(stats, s[i])
  }

  /** Each topic of the list was published after every topic behind it. */
  ghost predicate ByRecency(h: seq<Publish>, r: seq<Topic>) {
    NoDuplicates(r) && forall i, j :: 0 <= i < j < |r| ==> Latest(h, r[i]).time > Latest(h, r[j]).time
  }

  lemma Arrangement(stats: Stats, r: seq<Topic>, oldestFirst: bool) returns (s: seq<Entry>)
    requires NoDuplicates(r) && KeysMatch(stats, r)
    ensures Arranged(s, stats, r, oldestFirst)
  {
    hide Within;
    var m := |stats|;
    forall i | 0 <= i < m ensures r[i] in stats {
      TrackedAt(stats, r, i);
    }
    s := seq(m, i requires 0 <= i < m => Entry(r[Position(m, i, oldestFirst)], stats[r[Position(m, i, oldestFirst)]]));
  }

  lemma ArrangementIsComplete(s: seq<Entry>, stats: Stats, r: seq<Topic>, oldestFirst: bool, e: Entry)
    requires KeysMatch(stats, r) && Arranged(s, stats, r, oldestFirst)
    ensures e in s <==> EntryOf(stats, e)
  {
    if EntryOf(stats, e) {
      var i := PositionOf(stats, r, oldestFirst, e.topic);
      assert s[i].topic == e.topic;
    }
  }

  lemma PositionOf(stats: Stats, r: seq<Topic>, oldestFirst: bool, t: Topic) returns (i: nat)
    requires KeysMatch(stats, r) && t in stats
    ensures i < |stats| && r[Position(|stats|, i, oldestFirst)] == t
  {
    assert Within(r, |stats|, t);
    i := Position(|stats|, IndexOf(r, t), oldestFirst);
  }

  /** Such an arrangement is strictly sorted. */
  lemma ArrangementIsSorted(s: seq<Entry>, stats: Stats, h: seq<Publish>, r: seq<Topic>, oldestFirst: bool)
    requires ByRecency(h, r) && StatsOk(h, stats) && Arranged(s, stats, r, oldestFirst)
    ensures NoDuplicates(s) && SortedBy(s, SortKey(oldestFirst)) && KeyIsInjective(s, SortKey(oldestFirst))
  {
    forall i, j | 0 <= i < j < |s| ensures SortKey(oldestFirst)(s[i]) < SortKey(oldestFirst)(s[j]) {
      assert StatOk(h, s[i].topic, s[i].stat) && StatOk(h, s[j].topic, s[j].stat);
      var x, y := Position(|s|, i, oldestFirst), Position(|s|, j, oldestFirst);
      assert if oldestFirst then Latest(h, r[y]).time > Latest(h, r[x]).time else Latest(h, r[x]).time > Latest(h, r[y]).time;
    }
  }

  lemma {:induction false} CountOnce<T>(s: seq<T>, x: T)
    requires NoDuplicates(s)
    ensures multiset(s)[x] == if x in s then 1 else 0
  {
    if s != [] {
      var n := |s| - 1;
      CountOnce(s[..n], x);
      assert s == s[..n] + [s[n]];
    }
  }

  lemma SameElements<T>(a: seq<T>, b: seq<T>)
    requires NoDuplicates(a) && NoDuplicates(b) && forall x :: x in a <==> x in b
    ensures multiset(a) == multiset(b)
  {
    forall x ensures multiset(a)[x] == multiset(b)[x] {
      CountOnce(a, x);
      CountOnce(b, x);
    }
  }

  method SortedEntries(stats: Stats, oldestFirst: bool, ghost h: seq<Publish>, ghost r: seq<Topic>) returns (s: seq<Entry>)
    requires ByRecency(h, r) && KeysMatch(stats, r) && StatsOk(h, stats)
    ensures Arranged(s, stats, r, oldestFirst)
  {
    hide KeysMatch, StatsOk, Arranged, EntryOf, NoDuplicates, SortedBy, KeyIsInjective, SortKey, StableSorted;
    var list := Entries(stats);
    var a := new Entry[|list|](i requires 0 <= i < |list| => list[i]);
    assert a[..] == list;
    InsertionSort(a, SortKey(oldestFirst));
    StableSortedIsSorted(list, SortKey(oldestFirst));
    s := a[..];
    ghost var wanted := Arrangement(stats, r, oldestFirst);
    ArrangementIsSorted(wanted, stats, h, r, oldestFirst);
    forall e: Entry ensures e in list <==> e in wanted {
      ArrangementIsComplete(wanted, stats, r, oldestFirst, e);
    }
    SameElements(list, wanted);
    SortedIsUnique(wanted, s, SortKey(oldestFirst));
  }

  // ----- eviction -----

  /** What is left of the tracked topics when only the m most recent stay. */
  ghost predicate Keeps(left: Stats, stats: Stats, r: seq<Topic>, m: nat) {
    && |left| == m
    && (forall t :: t in left <==> Within(r, m, t))
    && (forall t :: t in left ==> t in stats && left[t] == stats[t])
  }

  method EvictOldest(stats: Stats, count: nat, ghost h: seq<Publish>, ghost r: seq<Topic>) returns (left: Stats)
    requires ByRecency(h, r) && KeysMatch(stats, r) && StatsOk(h, stats)
    ensures Keeps(left, stats, r, if count > |stats| then 0 else |stats| - count)
  {
    left := stats;
    KeepsAll(stats, r);
    hide Keeps, Within, StatsOk, OneLess, NoDuplicates, IndexOf, KeysMatch;
    if count == 0 || |stats| == 0 {
      return;
    }
    var oldest := SortedEntries(stats, true, h, r);
    assert |oldest| == |stats|;
    var n := if count > |oldest| then |oldest| else count;
    hide *;
    for i := 0 to n
      invariant Keeps(left, stats, r, |stats| - i)
    {
      DropOldest(left, oldest, stats, r, i);
      left := left - {oldest[i].topic};
    }
  }

  lemma KeepsAll(stats: Stats, r: seq<Topic>)
    requires KeysMatch(stats, r)
    ensures Keeps(stats, stats, r, |stats|)
  {
  }

  lemma DropOldest(left: Stats, oldest: seq<Entry>, stats: Stats, r: seq<Topic>, i: nat)
    requires NoDuplicates(r) && KeysMatch(stats, r) && Arranged(oldest, stats, r, true) && i < |stats|
    requires Keeps(left, stats, r, |stats| - i)
    ensures Keeps(left - {oldest[i].topic}, stats, r, |stats| - i - 1)
  {
    TrackedAt(stats, r, |stats| - 1 - i);
    hide Keeps, KeysMatch, OneLess, Within, NoDuplicates;
    LastWithin(r, |stats| - i, oldest[i].topic);
    DropOne(left, stats, r, |stats| - i, oldest[i].topic);
  }

  lemma DropOne(left: Stats, stats: Stats, r: seq<Topic>, m: nat, t: Topic)
    requires Keeps(left, stats, r, m) && 0 < m && OneLess(r, m, t)
    ensures Keeps(left - {t}, stats, r, m - 1)
  {
    hide Within;
    KeyRemoved(left, t);
  }

  lemma KeyRemoved(stats: Stats, t: Topic)
    requires t in stats
    ensures |stats - {t}| == |stats| - 1
  {
    assert (stats - {t}).Keys == stats.Keys - {t};
    assert |stats| == |stats.Keys| && |stats - {t}| == |(stats - {t}).Keys|;
  }

  lemma KeyAdded(stats: Stats, t: Topic, s: TopicStat)
    requires t !in stats
    ensures |stats[t := s]| == |stats| + 1 && stats[t := s].Keys == stats.Keys + {t}
  {
    assert stats[t := s].Keys == stats.Keys + {t};
    assert |stats| == |stats.Keys| && |stats[t := s]| == |stats[t := s].Keys|;
  }

  /** t is the last of the m most recent topics. */
  ghost predicate OneLess(r: seq<Topic>, m: nat, t: Topic)
    requires m > 0
  {
    Within(r, m, t) && forall x :: Within(r, m - 1, x) <==> Within(r, m, x) && x != t
  }

  lemma LastWithin(r: seq<Topic>, m: nat, t: Topic)
    requires 0 < m <= |r| && t in r && IndexOf(r, t) == m - 1
    ensures OneLess(r, m, t)
  {
    forall x ensures Within(r, m - 1, x) <==> Within(r, m, x) && x != t {
      WithinLess(r, m, t, x);
    }
  }

  lemma WithinLess(r: seq<Topic>, m: nat, t: Topic, x: Topic)
    requires 0 < m <= |r| && t in r && IndexOf(r, t) == m - 1
    ensures Within(r, m - 1, x) <==> Within(r, m, x) && x != t
  {
    if x in r {
      var i := IndexOf(r, x);
      assert r[i] == x && r[m - 1] == t;
      assert i == m - 1 <==> x == t;
    }
  }

  /** After evicting a tenth of a full tracker, enough topics are left. */
  lemma EvictedStillTracks(left: Stats, stats: Stats, h: seq<Publish>, r: seq<Topic>)
    requires KeysMatch(stats, r) && StatsOk(h, stats) && SizeOk(stats, r) && |stats| >= MAX_TRACKED
    requires Keeps(left, stats, r, |stats| - EVICTED)
    ensures KeysMatch(left, r) && StatsOk(h, left) && |left| + 1 == KEPT
  {
    forall t | t in left ensures StatOk(h, t, left[t]) {
      assert StatOk(h, t, stats[t]);
    }
  }

  lemma NothingNew(left: Stats, stats: Stats, h: seq<Publish>, r: seq<Topic>, t: Topic)
    requires |stats| >= MAX_TRACKED && Keeps(left, stats, r, |stats| - EVICTED) && t !in stats && r == MostRecent(h)
    requires CountsExact(stats, h)
    ensures t !in left && CountsExact(left, h)
  {
  }

  /** Every tracked topic was published after every forgotten one. */
  lemma TrackedAreNewest(stats: Stats, h: seq<Publish>, x: Topic, y: Topic)
    requires Increasing(h) && Tracks(stats, h) && x in stats && y !in stats && TimesPublished(h, y) > 0
    ensures |stats| <= 10000 && Latest(h, x).time > Latest(h, y).time
  {
    var r := MostRecent(h);
    RankedAlways(h);
    PublishedTopics(h, y);
    hide MostRecent;
    assert Within(r, |stats|, x) && !Within(r, |stats|, y);
  }

  lemma KeptOnes(left: Stats, stats: Stats, r: seq<Topic>, m: nat)
    requires Keeps(left, stats, r, m)
    ensures |left| == m && forall t :: t in left ==> t in stats && left[t] == stats[t]
  {
  }

  // ----- the tracker object -----

  /** `topics`, reported from the most recent on. */
  ghost predicate Reports(out: seq<Entry>, h: seq<Publish>, n: nat) {
    && n <= |MostRecent(h)| && |out| == n
    && forall i :: 0 <= i < n ==> out[i].topic == MostRecent(h)[i] && StatOk(h, out[i].topic, out[i].stat)
  }

  lemma ListingReports(out: seq<Entry>, stats: Stats, h: seq<Publish>)
    requires Arranged(out, stats, MostRecent(h), false) && StatsOk(h, stats)
    ensures Reports(out, h, |stats|)
  {
    hide MostRecent, StatOk;
    forall i | 0 <= i < |out| ensures StatOk(h, out[i].topic, out[i].stat) && out[i].topic == MostRecent(h)[i] {
      assert EntryOf(stats, out[i]);
    }
  }

  class Tracker {
    var stats: Stats
    ghost var history: seq<Publish>

    ghost predicate Valid()
      reads this
    {
      Increasing(history) && Tracks(stats, history)
    }

    constructor ()
      ensures Valid() && history == []
    {
      stats, history := map[], [];
    }

    method RecordPublish(topic: Topic, now: int, bytes: nat)
      requires Valid() && (history != [] ==> history[|history| - 1].time < now)
      modifies this
      ensures Valid() && history == old(history) + [Publish(topic, now, bytes)]
      ensures topic in stats
      ensures stats[topic] == TopicStat(if topic in old(stats) then old(stats)[topic].count + 1 else 1, now, bytes)
      ensures topic in old(stats) || |old(stats)| < 10000 ==> stats == old(stats)[topic := stats[topic]]
      ensures topic !in old(stats) && |old(stats)| >= 10000 ==>
                |stats| == 9001 && forall t :: t in stats && t != topic ==> t in old(stats) && stats[t] == old(stats)[t]
    {
      ghost var p := Publish(topic, now, bytes);
      hide KeysMatch, StatsOk, MostRecent, CountsExact, Keeps, ByRecency;
      RankedAlways(history);
      if topic in stats {
        TrackKnown(stats, history, p);
        stats := stats[topic := TopicStat(stats[topic].count + 1, now, bytes)];
      } else {
        var left := stats;
        TooMany(stats, history, p);
        if |stats| >= MAX_TRACKED {
          left := EvictOldest(stats, EVICTED, history, MostRecent(history));
          EvictedStillTracks(left, stats, history, MostRecent(history));
          NothingNew(left, stats, history, MostRecent(history), topic);
          KeptOnes(left, stats, MostRecent(history), |stats| - EVICTED);
          KeyAdded(left, topic, TopicStat(1, now, bytes));
        }
        TrackNew(left, history, p);
        stats := left[topic := TopicStat(1, now, bytes)];
      }
      history := history + [p];
    }

    /** Up to `limit` topics, most recent first; 200 when no limit is given. For limits up to KEPT these
        are the most recent topics of the whole history, forgotten ones included. */
    method ActiveTopics(limit: int) returns (out: seq<Entry>)
      requires Valid()
      ensures var n := if limit <= 0 then 200 else limit;
              Reports(out, history, if n < |stats| then n else |stats|)
      ensures var n := if limit <= 0 then 200 else limit;
              n <= 9001 ==> Reports(out, history, if n < |MostRecent(history)| then n else |MostRecent(history)|)
    {
      hide KeysMatch, StatsOk, StatOk, MostRecent, Arranged, Increasing;
      var n := if limit <= 0 then 200 else limit;
      RankedAlways(history);
      out := SortedEntries(stats, false, history, MostRecent(history));
      ListingReports(out, stats, history);
      if |out| > n {
        out := out[..n];
      }
    }
  }
}
