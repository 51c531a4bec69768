/** `Array.prototype.sort(cmp)` as ECMAScript 2019 and later specify it for a
    comparator that is consistent: a stable sort. It is written here as an
    insertion sort over a sequence; an element is placed after every element it
    does not compare strictly below, so equal elements keep their order. For a
    comparator that is not consistent the language leaves the order to the
    implementation, and this definition is one such order. */
module Sorting {

  /** Inserts `x` just before the first element of `t` that `x` compares strictly below. */
  function Insert<T(==)>(x: T, t: seq<T>, cmp: (T, T) -> int): (r: seq<T>)
    ensures multiset(r) == multiset(t) + multiset{x}
    ensures |r| == |t| + 1
  {
    if t == [] then [x]
    else if cmp(x, t[0]) < 0 then [x] + t
    else
      assert t == [t[0]] + t[1..];
      [t[0]] + Insert(x, t[1..], cmp)
  }

  /** The insertion sort of `s` under `cmp`: the result is a permutation of `s`. */
  function SortBy<T(==)>(s: seq<T>, cmp: (T, T) -> int): (r: seq<T>)
    ensures multiset(r) == multiset(s)
    ensures |r| == |s|
  {
    if s == [] then []
    else
      assert s == s[..|s| - 1] + [s[|s| - 1]];
      Insert(s[|s| - 1], SortBy(s[..|s| - 1], cmp), cmp)
  }

  /** `s` is in non-decreasing order of `key`. */
  predicate SortedByKey<T(==)>(s: seq<T>, key: T -> int) {
    forall i, j :: 0 <= i < j < |s| ==> key(s[i]) <= key(s[j])
  }

  /** On the elements of `s`, `cmp` says "strictly below" exactly when `key` is smaller:
      the comparator is the consistent order by `key`. */
  predicate KeyedBy<T(==)>(s: seq<T>, cmp: (T, T) -> int, key: T -> int) {
    forall a, b {:trigger cmp(a, b)} :: a in s && b in s ==> (cmp(a, b) < 0 <==> key(a) < key(b))
  }

  /** The elements of `s` whose key is `k`, in their order in `s`. */
  function FilterKey<T>(s: seq<T>, key: T -> int, k: int): (r: seq<T>)
    ensures |r| <= |s|
  {
    if s == [] then []
    else if key(s[0]) == k then [s[0]] + FilterKey(s[1..], key, k)
    else FilterKey(s[1..], key, k)
  }

  /** `FilterKey` keeps exactly the elements whose key is `k`. */
  lemma {:induction false} FilterKeyMembers<T>(s: seq<T>, key: T -> int, k: int)
    ensures forall x :: x in FilterKey(s, key, k) <==> x in s && key(x) == k
  {
    if s != [] {
      FilterKeyMembers(s[1..], key, k);
      assert s == [s[0]] + s[1..];
    }
  }

  lemma {:induction false} FilterKeyAppend<T>(a: seq<T>, b: seq<T>, key: T -> int, k: int)
    ensures FilterKey(a + b, key, k) == FilterKey(a, key, k) + FilterKey(b, key, k)
  {
    if a == [] {
      assert a + b == b;
    } else {
      assert (a + b)[0] == a[0];
      assert (a + b)[1..] == a[1..] + b;
      FilterKeyAppend(a[1..], b, key, k);
      if key(a[0]) == k {
        assert FilterKey(a + b, key, k) == [a[0]] + FilterKey(a[1..] + b, key, k);
      }
    }
  }

  lemma KeyedBySub<T>(s: seq<T>, t: seq<T>, cmp: (T, T) -> int, key: T -> int)
    requires KeyedBy(s, cmp, key)
    requires forall a :: a in t ==> a in s
    ensures KeyedBy(t, cmp, key)
  {
  }

  /** The sorted sequence has the same elements as the input. */
  lemma SortByMembers<T>(s: seq<T>, cmp: (T, T) -> int)
    ensures forall a :: a in SortBy(s, cmp) <==> a in s
  {
    var r := SortBy(s, cmp);
    forall a ensures a in r <==> a in s {
      assert a in r <==> a in multiset(r);
      assert a in s <==> a in multiset(s);
    }
  }

  /** Every element of `[last] + SortBy(init)` is an element of `init + [last]`. */
  lemma InsertDomain<T>(init: seq<T>, last: T, cmp: (T, T) -> int)
    ensures forall a :: a in [last] + SortBy(init, cmp) ==> a in init + [last]
  {
    SortByMembers(init, cmp);
    forall a | a in [last] + SortBy(init, cmp) ensures a in init + [last] {
      if a != last {
        assert a in multiset(init);
        assert multiset(init + [last]) == multiset(init) + multiset{last};
        assert a in multiset(init + [last]);
      }
    }
  }

  lemma {:induction false} InsertSorted<T>(x: T, t: seq<T>, cmp: (T, T) -> int, key: T -> int)
    requires SortedByKey(t, key)
    requires KeyedBy([x] + t, cmp, key)
    ensures SortedByKey(Insert(x, t, cmp), key)
  {
    if t != [] && cmp(x, t[0]) >= 0 {
      assert x in [x] + t && t[0] in [x] + t;
      KeyedBySub([x] + t, [x] + t[1..], cmp, key);
      InsertSorted(x, t[1..], cmp, key);
      var r := Insert(x, t[1..], cmp);
      forall y | y in r ensures key(t[0]) <= key(y) {
        assert y in multiset(r);
      }
    }
  }

  /** For a consistent comparator the insertion sort orders by the key. */
  lemma {:induction false} SortBySorted<T>(s: seq<T>, cmp: (T, T) -> int, key: T -> int)
    requires KeyedBy(s, cmp, key)
    ensures SortedByKey(SortBy(s, cmp), key)
  {
    if s != [] {
      var init, last := s[..|s| - 1], s[|s| - 1];
      assert s == init + [last];
      KeyedBySub(s, init, cmp, key);
      SortBySorted(init, cmp, key);
      InsertDomain(init, last, cmp);
      KeyedBySub(s, [last] + SortBy(init, cmp), cmp, key);
      InsertSorted(last, SortBy(init, cmp), cmp, key);
    }
  }

  lemma {:induction false} FilterKeyAbove<T>(t: seq<T>, key: T -> int, k: int)
    requires forall y :: y in t ==> k < key(y)
    ensures FilterKey(t, key, k) == []
  {
    if t != [] {
      FilterKeyAbove(t[1..], key, k);
    }
  }

  lemma SortedHeadLeast<T>(t: seq<T>, key: T -> int)
    requires SortedByKey(t, key) && t != []
    ensures forall y :: y in t ==> key(t[0]) <= key(y)
  {
    forall y | y in t ensures key(t[0]) <= key(y) {
      var i :| 0 <= i < |t| && t[i] == y;
    }
  }

  lemma {:induction false} InsertStable<T>(x: T, t: seq<T>, cmp: (T, T) -> int, key: T -> int, k: int)
    requires SortedByKey(t, key)
    requires KeyedBy([x] + t, cmp, key)
    ensures FilterKey(Insert(x, t, cmp), key, k)
         == FilterKey(t, key, k) + (if key(x) == k then [x] else [])
  {
    if t == [] {
    } else if cmp(x, t[0]) < 0 {
      assert x in [x] + t && t[0] in [x] + t;
      if key(x) == k {
        SortedHeadLeast(t, key);
        FilterKeyAbove(t, key, k);
      }
      FilterKeyAppend([x], t, key, k);
    } else {
      var rest := t[1..];
      assert SortedByKey(rest, key);
      KeyedBySub([x] + t, [x] + rest, cmp, key);
      InsertStable(x, rest, cmp, key, k);
      assert Insert(x, t, cmp) == [t[0]] + Insert(x, rest, cmp);
      FilterKeyAppend([t[0]], Insert(x, rest, cmp), key, k);
      assert t == [t[0]] + rest;
      FilterKeyAppend([t[0]], rest, key, k);
    }
  }

  /** Inserting the last element into the sorted rest appends it to the elements of its key. */
  lemma StableStep<T>(init: seq<T>, last: T, cmp: (T, T) -> int, key: T -> int, k: int)
    requires KeyedBy(init + [last], cmp, key)
    ensures FilterKey(Insert(last, SortBy(init, cmp), cmp), key, k)
         == FilterKey(SortBy(init, cmp), key, k) + (if key(last) == k then [last] else [])
  {
    KeyedBySub(init + [last], init, cmp, key);
    SortBySorted(init, cmp, key);
    InsertDomain(init, last, cmp);
    KeyedBySub(init + [last], [last] + SortBy(init, cmp), cmp, key);
    InsertStable(last, SortBy(init, cmp), cmp, key, k);
  }

  /** The sort is stable: for a consistent comparator, the elements sharing a
      key come out in the order they went in. */
  lemma {:induction false} SortByStable<T>(s: seq<T>, cmp: (T, T) -> int, key: T -> int, k: int)
    requires KeyedBy(s, cmp, key)
    ensures FilterKey(SortBy(s, cmp), key, k) == FilterKey(s, key, k)
  {
    if s != [] {
      var init, last := s[..|s| - 1], s[|s| - 1];
      assert s == init + [last];
      KeyedBySub(s, init, cmp, key);
      SortByStable(init, cmp, key, k);
      StableStep(init, last, cmp, key, k);
      FilterKeyAppend(init, [last], key, k);
    }
  }

  lemma {:induction false} InsertAtEnd<T>(x: T, t: seq<T>, cmp: (T, T) -> int, key: T -> int)
    requires KeyedBy([x] + t, cmp, key)
    requires forall y :: y in t ==> key(y) <= key(x)
    ensures Insert(x, t, cmp) == t + [x]
  {
    if t != [] {
      assert x in [x] + t && t[0] in [x] + t;
      KeyedBySub([x] + t, [x] + t[1..], cmp, key);
      InsertAtEnd(x, t[1..], cmp, key);
      assert [t[0]] + (t[1..] + [x]) == t + [x];
    }
  }

  /** Sorting an already ordered sequence changes nothing. */
  lemma {:induction false} SortBySortedIdentity<T>(s: seq<T>, cmp: (T, T) -> int, key: T -> int)
    requires KeyedBy(s, cmp, key)
    requires SortedByKey(s, key)
    ensures SortBy(s, cmp) == s
  {
    if s != [] {
      var init, last := s[..|s| - 1], s[|s| - 1];
      assert s == init + [last];
      KeyedBySub(s, init, cmp, key);
      SortBySortedIdentity(init, cmp, key);
      KeyedBySub(s, [last] + init, cmp, key);
      InsertAtEnd(last, init, cmp, key);
    }
  }

  /** No two entries of `ks` are equal. */
  predicate Distinct(ks: seq<int>) {
    forall i, j :: 0 <= i < j < |ks| ==> ks[i] != ks[j]
  }

  /** The elements of `s` grouped by key, one group per entry of `ks`, laid end to end. */
  function ConcatFilter<T>(s: seq<T>, key: T -> int, ks: seq<int>): seq<T> {
    if ks == [] then [] else FilterKey(s, key, ks[0]) + ConcatFilter(s, key, ks[1..])
  }

  lemma {:induction false} ConcatFilterEmpty<T>(key: T -> int, ks: seq<int>)
    ensures ConcatFilter([], key, ks) == []
  {
    if ks != [] {
      ConcatFilterEmpty(key, ks[1..]);
    }
  }

  lemma {:induction false} ConcatFilterSnoc<T>(s: seq<T>, x: T, key: T -> int, ks: seq<int>)
    requires Distinct(ks)
    ensures multiset(ConcatFilter(s + [x], key, ks))
         == multiset(ConcatFilter(s, key, ks)) + (if key(x) in ks then multiset{x} else multiset{})
  {
    if ks != [] {
      assert Distinct(ks[1..]) by {
        forall i, j | 0 <= i < j < |ks[1..]| ensures ks[1..][i] != ks[1..][j] {
          assert ks[1..][i] == ks[i + 1] && ks[1..][j] == ks[j + 1];
        }
      }
      ConcatFilterSnoc(s, x, key, ks[1..]);
      FilterKeyAppend(s, [x], key, ks[0]);
      assert FilterKey([x], key, ks[0]) == if key(x) == ks[0] then [x] else [];
      assert key(x) in ks <==> key(x) == ks[0] || key(x) in ks[1..];
      if key(x) == ks[0] {
        assert key(x) !in ks[1..] by {
          forall j | 0 <= j < |ks[1..]| ensures ks[1..][j] != key(x) {
            assert ks[1..][j] == ks[j + 1];
          }
        }
      }
    }
  }

  /** Grouping by key, one group for each of a list of distinct keys that covers
      every element's key, is a permutation: nothing is dropped or duplicated. */
  lemma {:induction false} ConcatFilterPermutation<T>(s: seq<T>, key: T -> int, ks: seq<int>)
    requires Distinct(ks)
    requires forall x :: x in s ==> key(x) in ks
    ensures multiset(ConcatFilter(s, key, ks)) == multiset(s)
  {
    if s == [] {
      ConcatFilterEmpty(key, ks);
    } else {
      var init, last := s[..|s| - 1], s[|s| - 1];
      assert s == init + [last];
      assert forall x :: x in init ==> x in s;
      ConcatFilterPermutation(init, key, ks);
      ConcatFilterSnoc(init, last, key, ks);
    }
  }
}
