/**
 * The stable descending sort that Python's `list.sort(key=k, reverse=True)`
 * performs: the result is ordered by non-increasing key, and elements with
 * equal keys keep their original relative order. It is used for the
 * inventory re-ordering and for the high-score table.
 */
module Sorting {
  import opened Common

  /**
   * Inserts x, which comes after every element of s in the original order,
   * behind every element whose key is at least key(x).
   */
  function InsertDesc<T>(s: seq<T>, x: T, key: T -> int): seq<T>
  {
    if s == [] then [x]
    else if key(s[|s| - 1]) >= key(x) then s + [x]
    else InsertDesc(s[..|s| - 1], x, key) + [s[|s| - 1]]
  }

  /** Insertion sort from the left: each element is inserted into the sorted prefix before it. */
  function SortDesc<T>(s: seq<T>, key: T -> int): seq<T>
  {
    if s == [] then [] else InsertDesc(SortDesc(s[..|s| - 1], key), s[|s| - 1], key)
  }

  predicate NonIncreasing<T>(s: seq<T>, key: T -> int)
  {
    forall i, j :: 0 <= i < j < |s| ==> key(s[i]) >= key(s[j])
  }

  /** The elements of s whose key is k, in their order in s. */
  function WithKey<T>(s: seq<T>, key: T -> int, k: int): seq<T>
  {
    if s == [] then []
    else WithKey(s[..|s| - 1], key, k) + (if key(s[|s| - 1]) == k then [s[|s| - 1]] else [])
  }

  lemma WithKeyAppend<T>(a: seq<T>, b: seq<T>, key: T -> int, k: int)
    ensures WithKey(a + b, key, k) == WithKey(a, key, k) + WithKey(b, key, k)
    decreases |b|
  {
    if b == [] {
      assert a + b == a;
    } else {
      assert (a + b)[..|a + b| - 1] == a + b[..|b| - 1];
      WithKeyAppend(a, b[..|b| - 1], key, k);
    }
  }

  lemma {:induction false} InsertDescPerm<T>(s: seq<T>, x: T, key: T -> int)
    ensures |InsertDesc(s, x, key)| == |s| + 1
    ensures multiset(InsertDesc(s, x, key)) == multiset(s) + multiset{x}
    decreases |s|
  {
    if s != [] && key(s[|s| - 1]) < key(x) {
      var init := s[..|s| - 1];
      assert s == init + [s[|s| - 1]];
      InsertDescPerm(init, x, key);
    }
  }

  lemma {:induction false} InsertDescSorted<T>(s: seq<T>, x: T, key: T -> int)
    requires NonIncreasing(s, key)
    ensures NonIncreasing(InsertDesc(s, x, key), key)
    decreases |s|
  {
    if s != [] && key(s[|s| - 1]) < key(x) {
      var init, y := s[..|s| - 1], s[|s| - 1];
      assert s == init + [y];
      InsertDescSorted(init, x, key);
      InsertDescPerm(init, x, key);
      var r := InsertDesc(init, x, key);
      forall i, j | 0 <= i < j < |r + [y]| ensures key((r + [y])[i]) >= key((r + [y])[j]) {
        if j == |r| {
          // every element of r is an element of init, or x itself
          assert (r + [y])[i] == r[i];
          assert r[i] in multiset(r);
          assert r[i] in multiset(init) || r[i] == x;
          if r[i] != x {
            var m :| 0 <= m < |init| && init[m] == r[i];
            assert key(s[m]) >= key(s[|s| - 1]);
          }
        }
      }
    }
  }

  lemma {:induction false} InsertDescWithKey<T>(s: seq<T>, x: T, key: T -> int, k: int)
    ensures WithKey(InsertDesc(s, x, key), key, k) == WithKey(s, key, k) + (if key(x) == k then [x] else [])
    decreases |s|
  {
    if s == [] {
    } else if key(s[|s| - 1]) >= key(x) {
      assert (s + [x])[..|s|] == s;
    } else {
      var init, y := s[..|s| - 1], s[|s| - 1];
      InsertDescWithKey(init, x, key, k);
      var r := InsertDesc(init, x, key);
      assert (r + [y])[..|r|] == r;
    }
  }

  lemma InsertDescFacts<T>(s: seq<T>, x: T, key: T -> int)
    ensures |InsertDesc(s, x, key)| == |s| + 1
    ensures multiset(InsertDesc(s, x, key)) == multiset(s) + multiset{x}
    ensures NonIncreasing(s, key) ==> NonIncreasing(InsertDesc(s, x, key), key)
    ensures forall k :: WithKey(InsertDesc(s, x, key), key, k)
                        == WithKey(s, key, k) + (if key(x) == k then [x] else [])
  {
    InsertDescPerm(s, x, key);
    if NonIncreasing(s, key) {
      InsertDescSorted(s, x, key);
    }
    forall k ensures WithKey(InsertDesc(s, x, key), key, k) == WithKey(s, key, k) + (if key(x) == k then [x] else []) {
      InsertDescWithKey(s, x, key, k);
    }
  }

  /** The sort's result is ordered, is a permutation of its input and is stable. */
  lemma {:induction false} SortDescFacts<T>(s: seq<T>, key: T -> int)
    ensures |SortDesc(s, key)| == |s|
    ensures multiset(SortDesc(s, key)) == multiset(s)
    ensures NonIncreasing(SortDesc(s, key), key)
    ensures forall k :: WithKey(SortDesc(s, key), key, k) == WithKey(s, key, k)
    decreases |s|
  {
    if s != [] {
      var init := s[..|s| - 1];
      assert s == init + [s[|s| - 1]];
      SortDescFacts(init, key);
      InsertDescFacts(SortDesc(init, key), s[|s| - 1], key);
    }
  }
}
