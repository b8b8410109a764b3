/** In-place insertion sort by an integer key. It is the Modbus client's own sort; where the
    gateway calls the library's `sort.Slice`, callers rely only on the contract below. */
module Sorting {

  ghost predicate SortedBy<T(!new)>(s: seq<T>, key: T -> int) {
    forall i, j :: 0 <= i < j < |s| ==> key(s[i]) <= key(s[j])
  }

  /** x put behind the elements with a key of at most its own, seen from the end of a sorted list. */
  function Inserted<T(!new)>(s: seq<T>, x: T, key: T -> int): (r: seq<T>)
    ensures |r| == |s| + 1
  {
    if s == [] || key(s[|s| - 1]) <= key(x) then s + [x] else Inserted(s[..|s| - 1], x, key) + [s[|s| - 1]]
  }

  function StableSorted<T(!new)>(s: seq<T>, key: T -> int): (r: seq<T>)
    ensures |r| == |s|
  {
    if s == [] then [] else Inserted(StableSorted(s[..|s| - 1], key), s[|s| - 1], key)
  }

  method InsertionSort<T(!new)>(a: array<T>, key: T -> int)
    modifies a
    ensures a[..] == StableSorted(old(a[..]), key)
  {
    hide StableSorted, Inserted;
    ghost var was := a[..];
    assert StableSorted(was[..0], key) == [];
    for i := 0 to a.Length
      invariant a[..] == StableSorted(was[..i], key) + was[i..]
    {
      ghost var done := StableSorted(was[..i], key);
      assert a[..i] == a[..][..i] == done && a[i] == a[..][i] == was[i];
      assert a[i + 1..] == a[..][i + 1..] == was[i + 1..];
      SortedNext(was, i, key);
      InsertLast(a, i, key);
    }
    assert was[..a.Length] == was;
  }

  lemma SortedNext<T(!new)>(s: seq<T>, i: nat, key: T -> int)
    requires i < |s|
    ensures StableSorted(s[..i + 1], key) == Inserted(StableSorted(s[..i], key), s[i], key)
  {
    assert s[..i + 1][..i] == s[..i];
  }

  /** The list after element j was swapped down as long as the one before it has a greater key. */
  ghost function Sunk<T(!new)>(s: seq<T>, j: nat, key: T -> int): seq<T>
    requires j < |s|
    decreases j
  {
    if j > 0 && key(s[j]) < key(s[j - 1]) then Sunk(s[j := s[j - 1]][j - 1 := s[j]], j - 1, key) else s
  }

  /** Moves element i down to its place among the sorted ones before it. */
  method InsertLast<T(!new)>(a: array<T>, i: nat, key: T -> int)
    requires i < a.Length
    modifies a
    ensures a[..] == Inserted(old(a[..i]), old(a[i]), key) + old(a[i + 1..])
  {
    var j := i;
    while j > 0 && key(a[j]) < key(a[j - 1])
      invariant 0 <= j <= i && Sunk(a[..], j, key) == Sunk(old(a[..]), i, key)
    {
      ghost var before := a[..];
      a[j], a[j - 1] := a[j - 1], a[j];
      assert a[..] == before[j := before[j - 1]][j - 1 := before[j]];
      j := j - 1;
    }
    SunkIsInserted(old(a[..]), i, key);
    assert old(a[..])[..i] == old(a[..i]) && old(a[..])[i + 1..] == old(a[i + 1..]);
  }

  lemma {:induction false} SunkIsInserted<T(!new)>(s: seq<T>, j: nat, key: T -> int)
    requires j < |s|
    ensures Sunk(s, j, key) == Inserted(s[..j], s[j], key) + s[j + 1..]
    decreases j
  {
    if j > 0 && key(s[j]) < key(s[j - 1]) {
      var swapped := s[j := s[j - 1]][j - 1 := s[j]];
      SunkIsInserted(swapped, j - 1, key);
      assert swapped[..j - 1] == s[..j][..j - 1] && swapped[j..] == [s[j - 1]] + s[j + 1..];
      assert Inserted(s[..j], s[j], key) == Inserted(s[..j][..j - 1], s[j], key) + [s[j - 1]];
    } else {
      assert s == s[..j] + [s[j]] + s[j + 1..];
    }
  }

  // ----- what the result is: sorted, the same elements, equal keys in their old order -----

  lemma {:induction false} InsertedElements<T(!new)>(s: seq<T>, x: T, key: T -> int)
    ensures multiset(Inserted(s, x, key)) == multiset(s) + multiset{x}
  {
    if s != [] && key(s[|s| - 1]) > key(x) {
      InsertedElements(s[..|s| - 1], x, key);
      assert s == s[..|s| - 1] + [s[|s| - 1]];
    }
  }

  lemma {:induction false} InsertedSorted<T(!new)>(s: seq<T>, x: T, key: T -> int)
    requires SortedBy(s, key)
    ensures SortedBy(Inserted(s, x, key), key)
  {
    if s != [] && key(s[|s| - 1]) > key(x) {
      var n := |s| - 1;
      InsertedSorted(s[..n], x, key);
      InsertedBelow(s[..n], x, key, key(s[n]));
    }
  }

  lemma {:induction false} InsertedBelow<T(!new)>(s: seq<T>, x: T, key: T -> int, bound: int)
    requires key(x) <= bound && forall i :: 0 <= i < |s| ==> key(s[i]) <= bound
    ensures forall i :: 0 <= i < |Inserted(s, x, key)| ==> key(Inserted(s, x, key)[i]) <= bound
  {
    if s != [] && key(s[|s| - 1]) > key(x) {
      InsertedBelow(s[..|s| - 1], x, key, bound);
    }
  }

  lemma {:induction false} StableSortedIsSorted<T(!new)>(s: seq<T>, key: T -> int)
    ensures SortedBy(StableSorted(s, key), key) && multiset(StableSorted(s, key)) == multiset(s)
  {
    if s != [] {
      var n := |s| - 1;
      StableSortedIsSorted(s[..n], key);
      InsertedSorted(StableSorted(s[..n], key), s[n], key);
      InsertedElements(StableSorted(s[..n], key), s[n], key);
      assert s == s[..n] + [s[n]];
    }
  }

  /** The elements with key k, in their order. */
  function WithKey<T(!new)>(s: seq<T>, key: T -> int, k: int): seq<T> {
    if s == [] then []
    else WithKey(s[..|s| - 1], key, k) + if key(s[|s| - 1]) == k then [s[|s| - 1]] else []
  }

  lemma WithKeyNext<T(!new)>(s: seq<T>, x: T, key: T -> int, k: int)
    ensures WithKey(s + [x], key, k) == WithKey(s, key, k) + if key(x) == k then [x] else []
  {
    assert (s + [x])[..|s|] == s;
  }

  lemma {:induction false} InsertedKeepsOrder<T(!new)>(s: seq<T>, x: T, key: T -> int, k: int)
    ensures WithKey(Inserted(s, x, key), key, k) == WithKey(s, key, k) + if key(x) == k then [x] else []
  {
    if s == [] || key(s[|s| - 1]) <= key(x) {
      WithKeyNext(s, x, key, k);
    } else {
      var n := |s| - 1;
      InsertedKeepsOrder(s[..n], x, key, k);
      WithKeyNext(Inserted(s[..n], x, key), s[n], key, k);
    }
  }

  /** The sort is stable. */
  lemma {:induction false} SortKeepsOrder<T(!new)>(s: seq<T>, key: T -> int, k: int)
    ensures WithKey(StableSorted(s, key), key, k) == WithKey(s, key, k)
  {
    if s != [] {
      var n := |s| - 1;
      SortKeepsOrder(s[..n], key, k);
      InsertedKeepsOrder(StableSorted(s[..n], key), s[n], key, k);
    }
  }

  ghost predicate SameGroups<T(!new)>(a: seq<T>, b: seq<T>, key: T -> int) {
    forall k :: WithKey(a, key, k) == WithKey(b, key, k)
  }

  /** Sortedness and stability determine the result. */
  lemma {:induction false} StableSortIsUnique<T(!new)>(a: seq<T>, b: seq<T>, key: T -> int)
    requires SortedBy(a, key) && SortedBy(b, key) && SameGroups(a, b, key)
    ensures a == b
  {
    if a != [] {
      var i := LastIsThere(a, b, key);
      var j := LastIsThere(b, a, key);
      var x, y := a[|a| - 1], b[|b| - 1];
      assert key(x) == key(y);
      assert a == a[..|a| - 1] + [x] && b == b[..|b| - 1] + [y];
      ShorterGroups(a[..|a| - 1], x, b[..|b| - 1], y, key);
      StableSortIsUnique(a[..|a| - 1], b[..|b| - 1], key);
    } else if b != [] {
      var i := LastIsThere(b, a, key);
    }
  }

  lemma ShorterGroups<T(!new)>(a: seq<T>, x: T, b: seq<T>, y: T, key: T -> int)
    requires SameGroups(a + [x], b + [y], key) && key(x) == key(y)
    ensures SameGroups(a, b, key) && x == y
  {
    forall k ensures WithKey(a, key, k) == WithKey(b, key, k) && (k == key(x) ==> x == y) {
      assert WithKey(a + [x], key, k) == WithKey(b + [y], key, k);
      WithKeyNext(a, x, key, k);
      WithKeyNext(b, y, key, k);
      if k == key(x) {
        SameLastElement(WithKey(a, key, k), x, WithKey(b, key, k), y);
      } else {
        assert WithKey(a, key, k) + [] == WithKey(a, key, k) && WithKey(b, key, k) + [] == WithKey(b, key, k);
      }
    }
    assert WithKey(a, key, key(x)) == WithKey(b, key, key(x));
  }

  lemma SameLastElement<T>(a: seq<T>, x: T, b: seq<T>, y: T)
    requires a + [x] == b + [y]
    ensures a == b && x == y
  {
    assert |a + [x]| == |b + [y]|;
    assert x == (a + [x])[|a|] && y == (b + [y])[|b|];
    assert a == (a + [x])[..|a|] && b == (b + [y])[..|b|];
  }

  lemma {:induction false} KeyPresent<T(!new)>(s: seq<T>, key: T -> int, k: int) returns (i: nat)
    requires WithKey(s, key, k) != []
    ensures i < |s| && key(s[i]) == k
  {
    i := |s| - 1;
    if key(s[i]) != k {
      i := KeyPresent(s[..i], key, k);
    }
  }

  lemma LastIsThere<T(!new)>(a: seq<T>, b: seq<T>, key: T -> int) returns (i: nat)
    requires a != [] && SameGroups(a, b, key)
    ensures i < |b| && key(b[i]) == key(a[|a| - 1])
  {
    var k := key(a[|a| - 1]);
    assert WithKey(a, key, k) != [];
    i := KeyPresent(b, key, k);
  }

  ghost predicate KeyIsInjective<T(!new)>(s: seq<T>, key: T -> int) {
    forall i, j :: 0 <= i < |s| && 0 <= j < |s| && key(s[i]) == key(s[j]) ==> s[i] == s[j]
  }

  /** When equal keys mean equal elements, there is only one sorted arrangement. */
  lemma {:induction false} SortedIsUnique<T(!new)>(a: seq<T>, b: seq<T>, key: T -> int)
    requires multiset(a) == multiset(b) && SortedBy(a, key) && SortedBy(b, key) && KeyIsInjective(a, key)
    ensures a == b
  {
    hide SortedBy, KeyIsInjective;
    SameLength(a, b);
    if a != [] {
      var front, front' := a[..|a| - 1], b[..|b| - 1];
      FrontFacts(a, b, key);
      SortedIsUnique(front, front', key);
      assert a == front + [a[|a| - 1]] && b == front' + [b[|b| - 1]];
    }
  }

  lemma SameLength<T>(a: seq<T>, b: seq<T>)
    requires multiset(a) == multiset(b)
    ensures |a| == |b|
  {
    assert |a| == |multiset(a)| == |b|;
  }

  /** Two such lists end in the same element and agree in what is left without it. */
  lemma FrontFacts<T(!new)>(a: seq<T>, b: seq<T>, key: T -> int)
    requires multiset(a) == multiset(b) && SortedBy(a, key) && SortedBy(b, key) && KeyIsInjective(a, key)
    requires a != [] && |a| == |b|
    ensures a[|a| - 1] == b[|b| - 1] && multiset(a[..|a| - 1]) == multiset(b[..|b| - 1])
    ensures SortedBy(a[..|a| - 1], key) && SortedBy(b[..|b| - 1], key) && KeyIsInjective(a[..|a| - 1], key)
  {
    SameLast(a, b, key);
    WithoutLast(a);
    WithoutLast(b);
    SortedFront(a, key);
    SortedFront(b, key);
  }

  lemma SortedFront<T(!new)>(s: seq<T>, key: T -> int)
    requires s != [] && SortedBy(s, key)
    ensures SortedBy(s[..|s| - 1], key)
  {
  }

  lemma WithoutLast<T>(s: seq<T>)
    requires s != []
    ensures multiset(s[..|s| - 1]) == multiset(s) - multiset{s[|s| - 1]}
  {
    assert s == s[..|s| - 1] + [s[|s| - 1]];
  }

  lemma Somewhere<T>(s: seq<T>, i: nat, t: seq<T>) returns (j: nat)
    requires i < |s| && multiset(s) == multiset(t)
    ensures j < |t| && t[j] == s[i]
  {
    assert s[i] in multiset(s) && s[i] in multiset(t);
    j :| 0 <= j < |t| && t[j] == s[i];
  }

  lemma SameLast<T(!new)>(a: seq<T>, b: seq<T>, key: T -> int)
    requires multiset(a) == multiset(b) && SortedBy(a, key) && SortedBy(b, key) && KeyIsInjective(a, key)
    requires a != [] && |a| == |b|
    ensures a[|a| - 1] == b[|b| - 1]
  {
    var n := |a| - 1;
    var i := Somewhere(b, n, a);
    var j := Somewhere(a, n, b);
    assert key(a[i]) <= key(a[n]) && key(b[j]) <= key(b[n]);
  }
}
