/** The library sort and binary search the sources call, with what they promise. */
module Sorting {

  predicate SortedBy<T>(s: seq<T>, key: T -> int) {
    forall j, k :: 0 <= j < k < |s| ==> key(s[j]) <= key(s[k])
  }

  /** Places an element after every element whose key is not greater. */
  function Insert<T>(s: seq<T>, x: T, key: T -> int): seq<T> {
    if s == [] || key(s[|s| - 1]) <= key(x) then s + [x]
    else Insert(s[..|s| - 1], x, key) + [s[|s| - 1]]
  }

  /** The stable sort by a key. */
  function StableSort<T>(s: seq<T>, key: T -> int): seq<T> {
    if s == [] then [] else Insert(StableSort(s[..|s| - 1], key), s[|s| - 1], key)
  }

  lemma {:induction false} InsertKeeps<T>(s: seq<T>, x: T, key: T -> int)
    ensures |Insert(s, x, key)| == |s| + 1 && multiset(Insert(s, x, key)) == multiset(s) + multiset{x}
  {
    if s != [] && key(s[|s| - 1]) > key(x) {
      assert s == s[..|s| - 1] + [s[|s| - 1]];
      InsertKeeps(s[..|s| - 1], x, key);
    }
  }

  lemma {:induction false} InsertSorted<T>(s: seq<T>, x: T, key: T -> int)
    requires SortedBy(s, key)
    ensures SortedBy(Insert(s, x, key), key)
  {
    if s != [] && key(s[|s| - 1]) > key(x) {
      var init, last := s[..|s| - 1], s[|s| - 1];
      InsertSorted(init, x, key);
      InsertKeeps(init, x, key);
      var r := Insert(init, x, key);
      forall j | 0 <= j < |r|
        ensures key(r[j]) <= key(last)
      {
        assert r[j] in multiset(r);
        assert r[j] == x || r[j] in init;
        if r[j] in init {
          var i :| 0 <= i < |init| && init[i] == r[j];
          assert key(s[i]) <= key(s[|s| - 1]);
        }
      }
    }
  }

  /** The sort orders its input and only rearranges it. */
  lemma {:induction false} StableSortSorted<T>(s: seq<T>, key: T -> int)
    ensures SortedBy(StableSort(s, key), key) && |StableSort(s, key)| == |s|
    ensures multiset(StableSort(s, key)) == multiset(s)
  {
    if s != [] {
      var init, last := s[..|s| - 1], s[|s| - 1];
      assert s == init + [last];
      StableSortSorted(init, key);
      InsertSorted(StableSort(init, key), last, key);
      InsertKeeps(StableSort(init, key), last, key);
    }
  }

  lemma {:induction false} SortedIsFixed<T>(s: seq<T>, key: T -> int)
    requires SortedBy(s, key)
    ensures StableSort(s, key) == s
  {
    if s != [] {
      SortedIsFixed(s[..|s| - 1], key);
      assert s == s[..|s| - 1] + [s[|s| - 1]];
    }
  }

  /** partition_point: the number of leading elements whose key is at or below a bound. */
  method PartitionPoint<T>(s: seq<T>, key: T -> int, bound: int) returns (n: nat)
    requires SortedBy(s, key)
    ensures n <= |s|
    ensures forall j :: 0 <= j < n ==> key(s[j]) <= bound
    ensures forall j :: n <= j < |s| ==> key(s[j]) > bound
  {
    n := 0;
    var hi := |s|;
    while n < hi
      invariant n <= hi <= |s|
      invariant forall j :: 0 <= j < n ==> key(s[j]) <= bound
      invariant forall j :: hi <= j < |s| ==> key(s[j]) > bound
    {
      var mid := (n + hi) / 2;
      if key(s[mid]) <= bound {
        n := mid + 1;
      } else {
        hi := mid;
      }
    }
  }

  /** The elements of a key, in their order. */
  function OfKey<T>(s: seq<T>, key: T -> int, k: int): seq<T> {
    if s == [] then []
    else OfKey(s[..|s| - 1], key, k) + (if key(s[|s| - 1]) == k then [s[|s| - 1]] else [])
  }

  lemma {:induction false} OfKeySnoc<T>(s: seq<T>, x: T, key: T -> int, k: int)
    ensures OfKey(s + [x], key, k) == OfKey(s, key, k) + if key(x) == k then [x] else []
  {
    assert (s + [x])[..|s|] == s;
  }

  lemma {:induction false} InsertIsLast<T>(s: seq<T>, x: T, key: T -> int, k: int)
    ensures OfKey(Insert(s, x, key), key, k) == OfKey(s, key, k) + if key(x) == k then [x] else []
  {
    if s == [] || key(s[|s| - 1]) <= key(x) {
      OfKeySnoc(s, x, key, k);
    } else {
      var init, last := s[..|s| - 1], s[|s| - 1];
      InsertIsLast(init, x, key, k);
      OfKeySnoc(Insert(init, x, key), last, key, k);
    }
  }

  /** Elements of equal keys keep their order. */
  lemma {:induction false} StableSortIsStable<T>(s: seq<T>, key: T -> int, k: int)
    ensures OfKey(StableSort(s, key), key, k) == OfKey(s, key, k)
  {
    if s != [] {
      StableSortIsStable(s[..|s| - 1], key, k);
      InsertIsLast(StableSort(s[..|s| - 1], key), s[|s| - 1], key, k);
    }
  }
}
