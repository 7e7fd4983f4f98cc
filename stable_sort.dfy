/** Python's `list.sort(key=...)` and `sorted(..., key=...)` over an integer
    key.  Both are stable sorts; `Sort` is the stable insertion sort, proved
    sorted, a permutation and stable, and proved to be the ONLY sequence with
    those three properties, so every stable sort of a list returns `Sort` of
    it.  `SortInPlace` is the in-place insertion sort on an array, proved
    equal to `Sort`. */
module StableSort {

  /** Keys never decrease along `s`. */
  predicate SortedBy<T>(s: seq<T>, key: T -> int) {
    forall i, j :: 0 <= i < j < |s| ==> key(s[i]) <= key(s[j])
  }

  /** `x` placed after the last element of `s` whose key is not above its own. */
  function Insert<T>(s: seq<T>, x: T, key: T -> int): seq<T>
  {
    if s == [] || key(s[|s| - 1]) <= key(x) then s + [x]
    else Insert(s[..|s| - 1], x, key) + [s[|s| - 1]]
  }

  /** Insertion sort: each element in turn inserted into the sorted prefix. */
  function Sort<T>(s: seq<T>, key: T -> int): seq<T>
  {
    if s == [] then [] else Insert(Sort(s[..|s| - 1], key), s[|s| - 1], key)
  }

  /** The elements of `s` whose key is `k`, in their order in `s`. */
  function Filter<T>(s: seq<T>, key: T -> int, k: int): seq<T>
  {
    if s == [] then []
    else Filter(s[..|s| - 1], key, k) + (if key(s[|s| - 1]) == k then [s[|s| - 1]] else [])
  }

  lemma {:induction false} FilterAppend<T>(a: seq<T>, b: seq<T>, key: T -> int, k: int)
    ensures Filter(a + b, key, k) == Filter(a, key, k) + Filter(b, key, k)
    decreases |b|
  {
    if b == [] {
      assert a + b == a;
    } else {
      assert (a + b)[..|a + b| - 1] == a + b[..|b| - 1];
      FilterAppend(a, b[..|b| - 1], key, k);
    }
  }

  lemma {:induction false} InsertBounded<T>(s: seq<T>, x: T, key: T -> int, bound: int)
    requires forall i :: 0 <= i < |s| ==> key(s[i]) <= bound
    requires key(x) <= bound
    ensures forall i :: 0 <= i < |Insert(s, x, key)| ==> key(Insert(s, x, key)[i]) <= bound
    decreases |s|
  {
    if !(s == [] || key(s[|s| - 1]) <= key(x)) {
      InsertBounded(s[..|s| - 1], x, key, bound);
    }
  }

  lemma SortedSnoc<T>(q: seq<T>, y: T, key: T -> int)
    requires SortedBy(q, key)
    requires forall i :: 0 <= i < |q| ==> key(q[i]) <= key(y)
    ensures SortedBy(q + [y], key)
  {
  }

  lemma {:induction false} InsertSorted<T>(s: seq<T>, x: T, key: T -> int)
    requires SortedBy(s, key)
    ensures SortedBy(Insert(s, x, key), key)
    decreases |s|
  {
    if s == [] || key(s[|s| - 1]) <= key(x) {
      SortedSnoc(s, x, key);
    } else {
      var init, last := s[..|s| - 1], s[|s| - 1];
      InsertSorted(init, x, key);
      InsertBounded(init, x, key, key(last));
      SortedSnoc(Insert(init, x, key), last, key);
    }
  }

  lemma {:induction false} InsertPermutes<T>(s: seq<T>, x: T, key: T -> int)
    ensures multiset(Insert(s, x, key)) == multiset(s) + multiset{x}
    decreases |s|
  {
    if !(s == [] || key(s[|s| - 1]) <= key(x)) {
      var init, last := s[..|s| - 1], s[|s| - 1];
      assert s == init + [last];
      InsertPermutes(init, x, key);
    }
  }

  lemma {:induction false} InsertFilter<T>(s: seq<T>, x: T, key: T -> int, k: int)
    ensures Filter(Insert(s, x, key), key, k) == Filter(s, key, k) + (if key(x) == k then [x] else [])
    decreases |s|
  {
    if s == [] || key(s[|s| - 1]) <= key(x) {
      var r := s + [x];
      assert r[..|r| - 1] == s;
    } else {
      var init, last := s[..|s| - 1], s[|s| - 1];
      InsertFilter(init, x, key, k);
      var q := Insert(init, x, key);
      var r := q + [last];
      assert r[..|r| - 1] == q;
      assert Filter(r, key, k) == Filter(q, key, k) + (if key(last) == k then [last] else []);
    }
  }

  /** `Sort` returns its input sorted by key, as a permutation. */
  lemma {:induction false} SortSorted<T>(s: seq<T>, key: T -> int)
    ensures SortedBy(Sort(s, key), key)
    ensures multiset(Sort(s, key)) == multiset(s)
    decreases |s|
  {
    if s != [] {
      var init := s[..|s| - 1];
      assert s == init + [s[|s| - 1]];
      SortSorted(init, key);
      InsertSorted(Sort(init, key), s[|s| - 1], key);
      InsertPermutes(Sort(init, key), s[|s| - 1], key);
    }
  }

  /** `Sort` is stable: the elements of any one key keep their order. */
  lemma {:induction false} SortStable<T>(s: seq<T>, key: T -> int, k: int)
    ensures Filter(Sort(s, key), key, k) == Filter(s, key, k)
    decreases |s|
  {
    if s != [] {
      var init := s[..|s| - 1];
      SortStable(init, key, k);
      InsertFilter(Sort(init, key), s[|s| - 1], key, k);
    }
  }

  lemma {:induction false} FilterMember<T>(s: seq<T>, key: T -> int, i: int)
    requires 0 <= i < |s|
    ensures Filter(s, key, key(s[i])) != []
    decreases |s|
  {
    if i < |s| - 1 {
      FilterMember(s[..|s| - 1], key, i);
    }
  }

  lemma {:induction false} FilterAbove<T>(s: seq<T>, key: T -> int, k: int)
    requires forall i :: 0 <= i < |s| ==> key(s[i]) < k
    ensures Filter(s, key, k) == []
    decreases |s|
  {
    if s != [] {
      FilterAbove(s[..|s| - 1], key, k);
    }
  }

  /** Two sorted sequences that agree on the elements of every key, in
      order, are the same sequence. */
  lemma {:induction false} SortedUnique<T>(a: seq<T>, b: seq<T>, key: T -> int)
    requires SortedBy(a, key) && SortedBy(b, key)
    requires forall k :: Filter(a, key, k) == Filter(b, key, k)
    ensures a == b
    decreases |a| + |b|
  {
    if a == [] && b == [] {
    } else if a == [] {
      FilterMember(b, key, 0);
      assert false;
    } else if b == [] {
      FilterMember(a, key, 0);
      assert false;
    } else {
      var a0, b0 := a[..|a| - 1], b[..|b| - 1];
      var la, lb := a[|a| - 1], b[|b| - 1];
      if key(la) < key(lb) {
        FilterAbove(a, key, key(lb));
        FilterMember(b, key, |b| - 1);
        assert false;
      }
      if key(lb) < key(la) {
        FilterAbove(b, key, key(la));
        FilterMember(a, key, |a| - 1);
        assert false;
      }
      var kl := key(la);
      assert Filter(a, key, kl) == Filter(a0, key, kl) + [la];
      assert Filter(b, key, kl) == Filter(b0, key, kl) + [lb];
      var fa, fb := Filter(a, key, kl), Filter(b, key, kl);
      assert fa == fb;
      assert fa[|fa| - 1] == la && fb[|fb| - 1] == lb;
      forall k ensures Filter(a0, key, k) == Filter(b0, key, k) {
        var tail := if key(la) == k then [la] else [];
        assert Filter(a, key, k) == Filter(a0, key, k) + tail;
        assert Filter(b, key, k) == Filter(b0, key, k) + tail;
        assert Filter(a, key, k) == Filter(b, key, k);
        SnocCancel(Filter(a0, key, k), Filter(b0, key, k), tail);
      }
      SortedUnique(a0, b0, key);
      assert a == a0 + [la] && b == b0 + [lb];
    }
  }

  lemma SnocCancel<T>(x: seq<T>, y: seq<T>, tail: seq<T>)
    requires x + tail == y + tail
    ensures x == y
  {
    assert |x| == |y|;
    assert (x + tail)[..|x|] == x && (y + tail)[..|y|] == y;
  }

  /** Any sorted, stable rearrangement of `s` is `Sort(s)`: every stable sort
      by the same key (Python's Timsort among them) agrees with `Sort`. */
  lemma SortIsTheStableSort<T>(s: seq<T>, t: seq<T>, key: T -> int)
    requires SortedBy(t, key)
    requires forall k :: Filter(t, key, k) == Filter(s, key, k)
    ensures t == Sort(s, key)
  {
    SortSorted(s, key);
    forall k ensures Filter(t, key, k) == Filter(Sort(s, key), key, k) {
      SortStable(s, key, k);
    }
    SortedUnique(t, Sort(s, key), key);
  }

  /** Where the insertion stops: after a key not above `key(x)`, before keys
      all above it. */
  lemma {:induction false} InsertAt<T>(p: seq<T>, x: T, key: T -> int, j: int)
    requires 0 <= j <= |p|
    requires j == 0 || key(p[j - 1]) <= key(x)
    requires forall m :: j <= m < |p| ==> key(p[m]) > key(x)
    ensures Insert(p, x, key) == p[..j] + [x] + p[j..]
    decreases |p|
  {
    if j == |p| {
      assert p[..j] == p && p[j..] == [];
    } else {
      var init := p[..|p| - 1];
      InsertAt(init, x, key, j);
      assert init[..j] == p[..j] && init[j..] + [p[|p| - 1]] == p[j..];
    }
  }

  /** One step of insertion sort: `a[i]` moved left past the elements of
      `a[..i]` whose keys are above its own. */
  method InsertInPlace<T>(a: array<T>, i: int, key: T -> int)
    requires 0 <= i < a.Length
    modifies a
    ensures a[..i + 1] == Insert(old(a[..i]), old(a[i]), key)
    ensures a[i + 1..] == old(a[i + 1..])
  {
    ghost var p := a[..i];
    var x := a[i];
    var j := i;
    while j > 0 && key(a[j - 1]) > key(x)
      invariant 0 <= j <= i
      invariant forall m :: 0 <= m < j ==> a[m] == p[m]
      invariant forall m :: j < m <= i ==> a[m] == p[m - 1]
      invariant forall m :: j <= m < i ==> key(p[m]) > key(x)
      invariant forall m :: i < m < a.Length ==> a[m] == old(a[m])
    {
      a[j] := a[j - 1];
      j := j - 1;
    }
    a[j] := x;
    InsertAt(p, x, key, j);
    assert a[..i + 1] == p[..j] + [x] + p[j..];
  }

  /** `list.sort(key=key)` in place, as insertion sort. */
  method SortInPlace<T>(a: array<T>, key: T -> int)
    modifies a
    ensures a[..] == Sort(old(a[..]), key)
  {
    ghost var s := a[..];
    var i := 0;
    while i < a.Length
      invariant 0 <= i <= a.Length
      invariant a[..i] == Sort(s[..i], key)
      invariant a[i..] == s[i..]
    {
      InsertInPlace(a, i, key);
      assert s[..i + 1] == s[..i] + [s[i]];
      i := i + 1;
    }
    assert s[..a.Length] == s;
  }
}
