/** Greedy merging of sorted spans into runs that are read as one block.

    Both range builders of the gateway walk a list sorted by start and either extend the
    current run or open a new one. A run may be extended by a span when the gap to the
    run's furthest end is small enough and the resulting size is within a limit. The two
    builders differ only in what they call the size: the Modbus one measures up to the end
    of the span being added, the S7 one up to the furthest end of the whole run. */
module Merging {

  /** A half-open interval of addresses. */
  datatype Span = Span(lo: int, hi: int)

  /** `hull` selects the S7 size rule, otherwise the Modbus one applies. */
  datatype Limits = Limits(maxGap: int, maxSize: int, hull: bool)

  function Max(a: int, b: int): int { if a < b then b else a }

  ghost predicate WellFormed(ts: seq<Span>) {
    && (forall k :: 0 <= k < |ts| ==> ts[k].lo <= ts[k].hi)
    && (forall j, k :: 0 <= j < k < |ts| ==> ts[j].lo <= ts[k].lo)
  }

  /** The furthest end among spans i .. k-1. */
  ghost function Reach(ts: seq<Span>, i: nat, k: nat): (m: int)
    requires i < k <= |ts|
    ensures forall x :: i <= x < k ==> ts[x].hi <= m
  {
    if i + 1 == k then ts[i].hi else Max(Reach(ts, i, k - 1), ts[k - 1].hi)
  }

  /** Some span of the run attains its reach. */
  lemma {:induction false} ReachAttained(ts: seq<Span>, i: nat, k: nat) returns (x: nat)
    requires i < k <= |ts|
    ensures i <= x < k && ts[x].hi == Reach(ts, i, k)
  {
    if i + 1 == k || ts[k - 1].hi >= Reach(ts, i, k - 1) {
      x := k - 1;
    } else {
      x := ReachAttained(ts, i, k - 1);
    }
  }

  ghost predicate Accepts(ts: seq<Span>, limits: Limits, i: nat, k: nat)
    requires i < k < |ts|
  {
    var reach := Reach(ts, i, k);
    var end := if limits.hull then Max(reach, ts[k].hi) else ts[k].hi;
    && ts[k].lo - reach <= limits.maxGap
    && end - ts[i].lo <= limits.maxSize
  }

  /** Spans i .. j-1 may be read as one block: every one after the first was accepted. */
  ghost predicate ValidRun(ts: seq<Span>, limits: Limits, i: nat, j: nat) {
    && i < j <= |ts|
    && forall k :: i < k < j ==> Accepts(ts, limits, i, k)
  }

  /** Where run `m` of the partition with the given starts stops. */
  ghost function RunEnd(ts: seq<Span>, starts: seq<nat>, m: nat): nat
    requires m < |starts|
  {
    if m + 1 < |starts| then starts[m + 1] else |ts|
  }

  ghost predicate RunOk(ts: seq<Span>, limits: Limits, starts: seq<nat>, m: nat)
    requires m < |starts|
  {
    ValidRun(ts, limits, starts[m], RunEnd(ts, starts, m))
  }

  /** Run m was opened because the run before it could not be extended. */
  ghost predicate Forced(ts: seq<Span>, limits: Limits, starts: seq<nat>, m: nat)
    requires 0 < m < |starts|
  {
    starts[m - 1] < starts[m] < |ts| && !Accepts(ts, limits, starts[m - 1], starts[m])
  }

  /** The spans from `base` on, cut into consecutive valid runs that begin at `starts`. */
  ghost predicate PartitionFrom(ts: seq<Span>, limits: Limits, starts: seq<nat>, base: nat) {
    && |starts| > 0
    && starts[0] == base
    && forall m :: 0 <= m < |starts| ==> RunOk(ts, limits, starts, m)
  }

  /** Moreover, a new run was only opened where the previous one could not be extended. */
  ghost predicate GreedyFrom(ts: seq<Span>, limits: Limits, starts: seq<nat>, base: nat) {
    && PartitionFrom(ts, limits, starts, base)
    && forall m :: 0 < m < |starts| ==> Forced(ts, limits, starts, m)
  }

  /** A longer run reaches at least as far, and exactly as far as its two halves. */
  lemma {:induction false} ReachSplit(ts: seq<Span>, i: nat, j: nat, k: nat)
    requires i < j < k <= |ts|
    ensures Reach(ts, i, k) == Max(Reach(ts, i, j), Reach(ts, j, k))
  {
    if j + 1 < k {
      ReachSplit(ts, i, j, k - 1);
    }
  }

  /** A run that starts at or before another, and whose earlier part reaches no further than
      the other's first span, accepts no more than the other does. */
  lemma EarlierRunAcceptsNoMore(ts: seq<Span>, limits: Limits, a: nat, i: nat, j: nat)
    requires WellFormed(ts)
    requires a <= i < j < |ts|
    requires a < i ==> Reach(ts, a, i) <= ts[i].hi
    requires Accepts(ts, limits, a, j)
    ensures Accepts(ts, limits, i, j)
  {
    if a < i {
      ReachSplit(ts, a, i, j);
    }
  }

  /** A valid run that begins strictly before a greedy start and contains it begins after
      the previous greedy start, and nothing in it before the greedy start reaches beyond
      the span found there. */
  lemma {:induction false} GreedyStartDominates(ts: seq<Span>, limits: Limits, g: seq<nat>, m: nat, a: nat, b: nat)
    requires WellFormed(ts)
    requires GreedyFrom(ts, limits, g, 0) && m < |g|
    requires ValidRun(ts, limits, a, b) && a < g[m] < b
    ensures 0 < m && g[m - 1] < a
    ensures Reach(ts, a, g[m]) <= ts[g[m]].hi
  {
    var i, j := g[m - 1], g[m];
    assert RunOk(ts, limits, g, m - 1) && Forced(ts, limits, g, m);
    if a <= i {
      if a < i {
        GreedyStartDominates(ts, limits, g, m - 1, a, b);
      }
      assert Accepts(ts, limits, a, j);
      EarlierRunAcceptsNoMore(ts, limits, a, i, j);
      assert false;
    }
    RejectedSpanReachesFurther(ts, limits, i, a, j);
  }

  /** What a run rejects, although a later run accepts it, ends beyond every span of that later run. */
  lemma RejectedSpanReachesFurther(ts: seq<Span>, limits: Limits, i: nat, a: nat, j: nat)
    requires WellFormed(ts)
    requires i < a < j < |ts| && ValidRun(ts, limits, i, j) && !Accepts(ts, limits, i, j) && Accepts(ts, limits, a, j)
    ensures Reach(ts, a, j) <= ts[j].hi
  {
    ReachSplit(ts, i, a, j);
    var x := ReachAttained(ts, a, j);
    assert Accepts(ts, limits, i, x);
    if limits.hull {
      assert Accepts(ts, limits, i, j - 1);
    }
  }

  /** Greedy merging is optimal: no way to cut the sorted spans into consecutive runs under
      the same limits uses fewer runs. */
  lemma {:induction false} GreedyIsOptimal(ts: seq<Span>, limits: Limits, g: seq<nat>, p: seq<nat>)
    requires WellFormed(ts)
    requires GreedyFrom(ts, limits, g, 0) && PartitionFrom(ts, limits, p, 0)
    ensures |g| <= |p|
  {
    if |p| < |g| {
      var last := |p| - 1;
      GreedyStaysAhead(ts, limits, g, p, last);
      assert RunOk(ts, limits, p, last) && Forced(ts, limits, g, last + 1);
      GreedyStartDominates(ts, limits, g, last + 1, p[last], |ts|);
    }
  }

  /** The m-th run of any partition starts no later than the m-th greedy run. */
  lemma {:induction false} GreedyStaysAhead(ts: seq<Span>, limits: Limits, g: seq<nat>, p: seq<nat>, m: nat)
    requires WellFormed(ts)
    requires GreedyFrom(ts, limits, g, 0) && PartitionFrom(ts, limits, p, 0)
    requires m < |g| && m < |p|
    ensures p[m] <= g[m]
  {
    if m > 0 {
      GreedyStaysAhead(ts, limits, g, p, m - 1);
      assert RunOk(ts, limits, p, m - 1) && Forced(ts, limits, g, m);
      if p[m] > g[m] {
        GreedyStartDominates(ts, limits, g, m, p[m - 1], p[m]);
      }
    }
  }

  // ----- the greedy cuts -----

  /** The starts of the runs a builder opens when it holds spans j .. k-1 and goes on with k. */
  ghost function Cuts(ts: seq<Span>, limits: Limits, j: nat, k: nat): seq<nat>
    requires j < k <= |ts|
    decreases |ts| - k
  {
    if k == |ts| then [j]
    else if Accepts(ts, limits, j, k) then Cuts(ts, limits, j, k + 1)
    else [j] + Cuts(ts, limits, k, k + 1)
  }

  lemma {:induction false} CutsAreGreedy(ts: seq<Span>, limits: Limits, j: nat, k: nat)
    requires j < k <= |ts| && ValidRun(ts, limits, j, k)
    ensures GreedyFrom(ts, limits, Cuts(ts, limits, j, k), j)
    decreases |ts| - k
  {
    if k == |ts| {
      LastRun(ts, limits, j);
    } else if Accepts(ts, limits, j, k) {
      CutsAreGreedy(ts, limits, j, k + 1);
    } else {
      CutsAreGreedy(ts, limits, k, k + 1);
      PrependRun(ts, limits, j, k, Cuts(ts, limits, k, k + 1));
    }
  }

  lemma LastRun(ts: seq<Span>, limits: Limits, j: nat)
    requires ValidRun(ts, limits, j, |ts|)
    ensures GreedyFrom(ts, limits, [j], j)
  {
  }

  lemma PrependRun(ts: seq<Span>, limits: Limits, j: nat, k: nat, more: seq<nat>)
    requires ValidRun(ts, limits, j, k) && k < |ts| && !Accepts(ts, limits, j, k)
    requires GreedyFrom(ts, limits, more, k)
    ensures GreedyFrom(ts, limits, [j] + more, j)
  {
    var starts := [j] + more;
    forall m | 0 <= m < |starts| ensures RunOk(ts, limits, starts, m) {
      if m > 0 {
        assert RunOk(ts, limits, more, m - 1);
        assert RunEnd(ts, starts, m) == RunEnd(ts, more, m - 1);
      }
    }
    forall m | 0 < m < |starts| ensures Forced(ts, limits, starts, m) {
      if m > 1 {
        assert Forced(ts, limits, more, m - 1);
      }
    }
  }

  /** The greedy cuts are as few as any partition's. */
  lemma CutsAreFewest(ts: seq<Span>, limits: Limits, p: seq<nat>)
    requires ts != [] && WellFormed(ts)
    requires PartitionFrom(ts, limits, p, 0)
    ensures |Cuts(ts, limits, 0, 1)| <= |p|
  {
    CutsAreGreedy(ts, limits, 0, 1);
    GreedyIsOptimal(ts, limits, Cuts(ts, limits, 0, 1), p);
  }

  lemma Regroup<T>(front: seq<T>, x: T, back: seq<T>)
    ensures front + [x] + back == front + ([x] + back)
  {
  }
}
