// `slice::sort_by` with the comparator both BVH constructors build from
// `box_compare`: `Less` when the first key is smaller, `Greater` when the
// second is, `Equal` otherwise. That comparator orders by a real key, and
// `sort_by` is stable, so its result is the stable sort by key, which
// insertion sort computes (`SortStable`).

module Sorting {
  /** The keys of `s` never decrease. */
  predicate SortedBy<T>(s: seq<T>, key: T -> real) {
    forall i, j :: 0 <= i < j < |s| ==> key(s[i]) <= key(s[j])
  }

  /** `x` placed before the first element whose key is not smaller than its own. */
  function Insert<T>(x: T, s: seq<T>, key: T -> real): (r: seq<T>)
    ensures |r| == |s| + 1
    ensures multiset(r) == multiset(s) + multiset{x}
    ensures SortedBy(s, key) ==> SortedBy(r, key)
  {
    if |s| == 0 || key(x) <= key(s[0]) then [x] + s
    else
      var rest := Insert(x, s[1..], key);
      assert s == [s[0]] + s[1..];
      InsertHead(x, s, key, rest);
      [s[0]] + rest
  }

  /** Putting back the head of a sorted list in front of the insertion into its tail keeps it sorted. */
  lemma InsertHead<T>(x: T, s: seq<T>, key: T -> real, rest: seq<T>)
    requires 0 < |s| && key(s[0]) < key(x)
    requires multiset(rest) == multiset(s[1..]) + multiset{x}
    requires SortedBy(s, key) ==> SortedBy(rest, key)
    ensures SortedBy(s, key) ==> SortedBy([s[0]] + rest, key)
  {
    if SortedBy(s, key) {
      forall i | 0 <= i < |rest|
        ensures key(s[0]) <= key(rest[i])
      {
        assert rest[i] in multiset(rest);
        if rest[i] != x {
          assert rest[i] in multiset(s[1..]);
          var j :| 0 <= j < |s[1..]| && s[1..][j] == rest[i];
          assert s[j + 1] == rest[i];
        }
      }
    }
  }

  /** Insertion sort by `key`; stable by `SortStable`. */
  function Sort<T>(s: seq<T>, key: T -> real): (r: seq<T>)
    ensures |r| == |s|
    ensures multiset(r) == multiset(s)
  {
    if |s| == 0 then []
    else
      assert s == [s[0]] + s[1..];
      Insert(s[0], Sort(s[1..], key), key)
  }

  /** The sort's result is ordered by key. */
  lemma {:induction false} SortSorted<T>(s: seq<T>, key: T -> real)
    ensures SortedBy(Sort(s, key), key)
  {
    if |s| != 0 {
      SortSorted(s[1..], key);
    }
  }

  /** The elements of `s` whose key is `k`, in their order in `s`. */
  function KeyRun<T>(s: seq<T>, key: T -> real, k: real): (r: seq<T>)
    ensures forall i :: 0 <= i < |r| ==> key(r[i]) == k
    ensures |r| <= |s|
  {
    if |s| == 0 then []
    else (if key(s[0]) == k then [s[0]] else []) + KeyRun(s[1..], key, k)
  }

  /**
   * Inserting `x` puts it ahead of every element with its key, so among
   * the elements of any one key it comes first.
   */
  lemma {:induction false} InsertKeyRun<T>(x: T, s: seq<T>, key: T -> real, k: real)
    ensures KeyRun(Insert(x, s, key), key, k) == (if key(x) == k then [x] else []) + KeyRun(s, key, k)
  {
    if |s| == 0 || key(x) <= key(s[0]) {
      assert ([x] + s)[1..] == s;
    } else {
      InsertKeyRun(x, s[1..], key, k);
      assert ([s[0]] + Insert(x, s[1..], key))[1..] == Insert(x, s[1..], key);
    }
  }

  /** The sort is stable: the elements of each key keep their order. */
  lemma {:induction false} SortStable<T>(s: seq<T>, key: T -> real, k: real)
    ensures KeyRun(Sort(s, key), key, k) == KeyRun(s, key, k)
  {
    if |s| != 0 {
      SortStable(s[1..], key, k);
      InsertKeyRun(s[0], Sort(s[1..], key), key, k);
    }
  }

  /** A permutation holds the same elements: each element of `s` sits at some index of `r`. */
  lemma PermutationMembers<T>(s: seq<T>, r: seq<T>, i: nat)
    requires multiset(r) == multiset(s) && i < |s|
    ensures exists j :: 0 <= j < |r| && r[j] == s[i]
  {
    assert s[i] in multiset(s);
    assert s[i] in multiset(r);
    assert s[i] in r;
  }
}
