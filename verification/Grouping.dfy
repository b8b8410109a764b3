/** Splitting a list into groups of equal key, each in the order of the list. */
module Grouping {

  /** The elements with key k among the first n. */
  function OfKey<T, K(==)>(s: seq<T>, n: nat, key: T -> K, k: K): seq<T>
    requires n <= |s|
  {
    if n == 0 then []
    else if key(s[n - 1]) == k then OfKey(s, n - 1, key, k) + [s[n - 1]]
    else OfKey(s, n - 1, key, k)
  }

  method GroupBy<T, K(==, !new)>(s: seq<T>, key: T -> K) returns (groups: map<K, seq<T>>)
    ensures forall k :: k in groups <==> OfKey(s, |s|, key, k) != []
    ensures forall k :: k in groups ==> groups[k] == OfKey(s, |s|, key, k)
  {
    groups := map[];
    for i := 0 to |s|
      invariant forall k :: k in groups <==> OfKey(s, i, key, k) != []
      invariant forall k :: k in groups ==> groups[k] == OfKey(s, i, key, k)
    {
      var k := key(s[i]);
      groups := groups[k := (if k in groups then groups[k] else []) + [s[i]]];
    }
  }

  /** The elements among the first n whose key is one of the given ones. */
  ghost function OfKeys<T, K>(s: seq<T>, n: nat, key: T -> K, ks: set<K>): multiset<T>
    requires n <= |s|
  {
    if n == 0 then multiset{}
    else if key(s[n - 1]) in ks then OfKeys(s, n - 1, key, ks) + multiset{s[n - 1]}
    else OfKeys(s, n - 1, key, ks)
  }

  lemma {:induction false} OneMoreKey<T, K>(s: seq<T>, n: nat, key: T -> K, ks: set<K>, k: K)
    requires k !in ks && n <= |s|
    ensures OfKeys(s, n, key, ks + {k}) == OfKeys(s, n, key, ks) + multiset(OfKey(s, n, key, k))
  {
    if n > 0 {
      OneMoreKey(s, n - 1, key, ks, k);
    }
  }

  lemma {:induction false} NoKeys<T, K>(s: seq<T>, n: nat, key: T -> K)
    requires n <= |s|
    ensures OfKeys(s, n, key, {}) == multiset{}
  {
    if n > 0 {
      NoKeys(s, n - 1, key);
    }
  }

  lemma {:induction false} AllKeys<T, K>(s: seq<T>, n: nat, key: T -> K, ks: set<K>)
    requires n <= |s| && forall i :: 0 <= i < n ==> key(s[i]) in ks
    ensures OfKeys(s, n, key, ks) == multiset(s[..n])
  {
    if n > 0 {
      AllKeys(s, n - 1, key, ks);
      assert s[..n] == s[..n - 1] + [s[n - 1]];
    }
  }

  lemma {:induction false} GroupExists<T, K>(s: seq<T>, n: nat, key: T -> K, i: nat)
    requires i < n <= |s|
    ensures OfKey(s, n, key, key(s[i])) != []
  {
    if i + 1 < n {
      GroupExists(s, n - 1, key, i);
    }
  }

  /** Once every non-empty group was taken, every element was. */
  lemma AllGrouped<T, K(!new)>(s: seq<T>, key: T -> K, ks: set<K>)
    requires forall k :: OfKey(s, |s|, key, k) != [] ==> k in ks
    ensures OfKeys(s, |s|, key, ks) == multiset(s)
  {
    forall i | 0 <= i < |s| ensures key(s[i]) in ks {
      GroupExists(s, |s|, key, i);
    }
    AllKeys(s, |s|, key, ks);
    assert s[..|s|] == s;
  }

  lemma {:induction false} GroupWithin<T, K>(s: seq<T>, n: nat, key: T -> K, k: K)
    requires n <= |s|
    ensures multiset(OfKey(s, n, key, k)) <= multiset(s[..n])
  {
    if n > 0 {
      GroupWithin(s, n - 1, key, k);
      assert s[..n] == s[..n - 1] + [s[n - 1]];
    }
  }

  lemma {:induction false} GroupHasKey<T, K>(s: seq<T>, n: nat, key: T -> K, k: K, i: nat)
    requires n <= |s| && i < |OfKey(s, n, key, k)|
    ensures key(OfKey(s, n, key, k)[i]) == k
    decreases n
  {
    if n > 0 && i < |OfKey(s, n - 1, key, k)| {
      GroupHasKey(s, n - 1, key, k, i);
    }
  }

  /** A group holds only elements of the list, all with its key. */
  lemma GroupMembers<T, K>(s: seq<T>, key: T -> K, k: K)
    ensures multiset(OfKey(s, |s|, key, k)) <= multiset(s)
    ensures forall x :: x in OfKey(s, |s|, key, k) ==> x in s && key(x) == k
  {
    var group := OfKey(s, |s|, key, k);
    GroupWithin(s, |s|, key, k);
    assert s[..|s|] == s;
    forall x | x in group ensures x in s && key(x) == k {
      assert x in multiset(group) && x in multiset(s);
      var i :| 0 <= i < |group| && group[i] == x;
      GroupHasKey(s, |s|, key, k, i);
    }
  }

  lemma {:induction false} GroupHolds<T, K>(s: seq<T>, n: nat, key: T -> K, i: nat)
    requires i < n <= |s|
    ensures s[i] in OfKey(s, n, key, key(s[i]))
  {
    if i + 1 < n {
      GroupHolds(s, n - 1, key, i);
    }
  }

  /** A group keeps the order of the list. */
  lemma {:induction false} GroupKeepsOrder<T, K>(s: seq<T>, n: nat, key: T -> K, k: K, i: nat, j: nat) returns (x: nat, y: nat)
    requires n <= |s| && i < j < |OfKey(s, n, key, k)|
    ensures x < y < n && s[x] == OfKey(s, n, key, k)[i] && s[y] == OfKey(s, n, key, k)[j]
    decreases n
  {
    if j < |OfKey(s, n - 1, key, k)| {
      x, y := GroupKeepsOrder(s, n - 1, key, k, i, j);
    } else {
      x := PlaceInList(s, n - 1, key, k, i);
      y := n - 1;
    }
  }

  lemma {:induction false} PlaceInList<T, K>(s: seq<T>, n: nat, key: T -> K, k: K, i: nat) returns (x: nat)
    requires n <= |s| && i < |OfKey(s, n, key, k)|
    ensures x < n && s[x] == OfKey(s, n, key, k)[i]
    decreases n
  {
    if i < |OfKey(s, n - 1, key, k)| {
      x := PlaceInList(s, n - 1, key, k, i);
    } else {
      x := n - 1;
    }
  }
}
