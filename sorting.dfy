/** `Array.prototype.sort` with a comparator of the form
    `(x, y) => key(x) - key(y)`, as the reader uses it (items by date, favicon
    candidates by rank). The language requires that sort to be stable, so it
    is modelled by a stable insertion sort on an integer key. */
module Sorting {

  /** Every element's key is no larger than the key of any later element. */
  ghost predicate SortedBy<T>(s: seq<T>, key: T -> int)
  {
    forall i, j :: 0 <= i < j < |s| ==> key(s[i]) <= key(s[j])
  }

  /** The elements of `s` whose key is `k`, in their order in `s`. */
  function WithKey<T>(s: seq<T>, key: T -> int, k: int): (r: seq<T>)
    ensures |r| <= |s|
  {
    if s == [] then []
    else if key(s[0]) == k then [s[0]] + WithKey(s[1..], key, k)
    else WithKey(s[1..], key, k)
  }


  /** Puts `x` in front of the first element whose key is at least its own. */
  function Insert<T>(x: T, s: seq<T>, key: T -> int): seq<T>
  {
    if s == [] then [x]
    else if key(x) <= key(s[0]) then [x] + s
    else [s[0]] + Insert(x, s[1..], key)
  }

  /** The stable sort of `s` by `key`. */
  function SortBy<T>(s: seq<T>, key: T -> int): seq<T>
  {
    if s == [] then [] else Insert(s[0], SortBy(s[1..], key), key)
  }

  lemma {:induction false} InsertMembers<T>(x: T, s: seq<T>, key: T -> int)
    ensures multiset(Insert(x, s, key)) == multiset(s) + multiset{x}
    ensures |Insert(x, s, key)| == |s| + 1
    ensures forall y :: y in Insert(x, s, key) <==> y == x || y in s
  {
    if s != [] && key(x) > key(s[0]) {
      InsertMembers(x, s[1..], key);
      assert s == [s[0]] + s[1..];
    }
  }

  /** Every key in `s` is at least `b`. */
  ghost predicate AllAtLeast<T>(s: seq<T>, key: T -> int, b: int)
  {
    forall i :: 0 <= i < |s| ==> b <= key(s[i])
  }

  lemma SortedCons<T>(a: T, r: seq<T>, key: T -> int)
    requires SortedBy(r, key) && AllAtLeast(r, key, key(a))
    ensures SortedBy([a] + r, key)
  {
    var u := [a] + r;
    forall i, j | 0 <= i < j < |u| ensures key(u[i]) <= key(u[j]) {
      assert u[j] == r[j - 1];
      if i > 0 {
        assert u[i] == r[i - 1];
      }
    }
  }

  lemma SortedTail<T>(s: seq<T>, key: T -> int)
    requires s != [] && SortedBy(s, key)
    ensures SortedBy(s[1..], key) && AllAtLeast(s[1..], key, key(s[0]))
  {
    var t := s[1..];
    forall i | 0 <= i < |t| ensures key(s[0]) <= key(t[i]) {
      assert t[i] == s[i + 1];
    }
    forall i, j | 0 <= i < j < |t| ensures key(t[i]) <= key(t[j]) {
      assert t[i] == s[i + 1] && t[j] == s[j + 1];
    }
  }

  lemma {:induction false} InsertAtLeast<T>(x: T, s: seq<T>, key: T -> int, b: int)
    requires AllAtLeast(s, key, b) && b <= key(x)
    ensures AllAtLeast(Insert(x, s, key), key, b)
  {
    if s != [] && key(x) > key(s[0]) {
      assert AllAtLeast(s[1..], key, b) by {
        forall i | 0 <= i < |s[1..]| ensures b <= key(s[1..][i]) {
          assert s[1..][i] == s[i + 1];
        }
      }
      InsertAtLeast(x, s[1..], key, b);
    }
  }

  lemma {:induction false} InsertSorted<T>(x: T, s: seq<T>, key: T -> int)
    requires SortedBy(s, key)
    ensures SortedBy(Insert(x, s, key), key)
  {
    if s == [] {
    } else if key(x) <= key(s[0]) {
      SortedTail(s, key);
      assert AllAtLeast(s, key, key(x)) by {
        forall i | 0 <= i < |s| ensures key(x) <= key(s[i]) {
          if i > 0 {
            assert s[i] == s[1..][i - 1];
          }
        }
      }
      SortedCons(x, s, key);
    } else {
      SortedTail(s, key);
      InsertSorted(x, s[1..], key);
      InsertAtLeast(x, s[1..], key, key(s[0]));
      SortedCons(s[0], Insert(x, s[1..], key), key);
    }
  }

  /** The sort is sorted and a permutation of its input. */
  lemma {:induction false} SortByIsSortedPermutation<T>(s: seq<T>, key: T -> int)
    ensures SortedBy(SortBy(s, key), key)
    ensures multiset(SortBy(s, key)) == multiset(s)
    ensures |SortBy(s, key)| == |s|
  {
    if s != [] {
      SortByIsSortedPermutation(s[1..], key);
      InsertSorted(s[0], SortBy(s[1..], key), key);
      InsertMembers(s[0], SortBy(s[1..], key), key);
      assert s == [s[0]] + s[1..];
    }
  }

  lemma {:induction false} WithKeyInsert<T>(x: T, s: seq<T>, key: T -> int, k: int)
    requires SortedBy(s, key)
    ensures WithKey(Insert(x, s, key), key, k)
         == if key(x) == k then [x] + WithKey(s, key, k) else WithKey(s, key, k)
  {
    if s != [] && key(x) > key(s[0]) {
      SortedTail(s, key);
      WithKeyInsert(x, s[1..], key, k);
      var r := Insert(x, s[1..], key);
      assert Insert(x, s, key) == [s[0]] + r;
      assert ([s[0]] + r)[1..] == r;
      if key(x) == k {
        assert key(s[0]) != k;
      }
    }
  }

  /** Stability: among the elements with any one key, the sort keeps their
      original order. */
  lemma {:induction false} SortByIsStable<T>(s: seq<T>, key: T -> int, k: int)
    ensures WithKey(SortBy(s, key), key, k) == WithKey(s, key, k)
  {
    if s != [] {
      SortByIsStable(s[1..], key, k);
      SortByIsSortedPermutation(s[1..], key);
      WithKeyInsert(s[0], SortBy(s[1..], key), key, k);
    }
  }

  /** No element of a list whose keys are all at least `b` has a smaller
      key. */
  lemma {:induction false} NoneBelow<T>(s: seq<T>, key: T -> int, k: int, b: int)
    requires AllAtLeast(s, key, b) && k < b
    ensures WithKey(s, key, k) == []
    decreases |s|
  {
    if s != [] {
      assert AllAtLeast(s[1..], key, b) by {
        forall i | 0 <= i < |s[1..]| ensures b <= key(s[1..][i]) {
          assert s[1..][i] == s[i + 1];
        }
      }
      NoneBelow(s[1..], key, k, b);
    }
  }

  lemma GroupsCons<T>(x: T, t: seq<T>, key: T -> int, a: int)
    requires AllAtLeast(t, key, key(x)) && a <= key(x) <= a + 2
    requires t == WithKey(t, key, a) + WithKey(t, key, a + 1) + WithKey(t, key, a + 2)
    ensures [x] + t == WithKey([x] + t, key, a) + WithKey([x] + t, key, a + 1) + WithKey([x] + t, key, a + 2)
  {
    assert ([x] + t)[1..] == t;
    var p, q, r := WithKey(t, key, a), WithKey(t, key, a + 1), WithKey(t, key, a + 2);
    assert WithKey([x] + t, key, a) == if key(x) == a then [x] + p else p;
    assert WithKey([x] + t, key, a + 1) == if key(x) == a + 1 then [x] + q else q;
    assert WithKey([x] + t, key, a + 2) == if key(x) == a + 2 then [x] + r else r;
    if key(x) == a {
      assert [x] + p + q + r == [x] + (p + q + r);
    } else if key(x) == a + 1 {
      NoneBelow(t, key, a, a + 1);
      assert [] + ([x] + q) + r == [x] + (p + q + r);
    } else {
      NoneBelow(t, key, a, a + 2);
      NoneBelow(t, key, a + 1, a + 2);
      assert [] + [] + ([x] + r) == [x] + (p + q + r);
    }
  }

  /** A sorted list whose keys are `a`, `a + 1` or `a + 2` is its key `a`
      elements, then its key `a + 1` elements, then its key `a + 2`
      elements. */
  lemma {:induction false} SortedSplitsIntoThreeKeys<T>(s: seq<T>, key: T -> int, a: int)
    requires SortedBy(s, key)
    requires forall i :: 0 <= i < |s| ==> a <= key(s[i]) <= a + 2
    ensures s == WithKey(s, key, a) + WithKey(s, key, a + 1) + WithKey(s, key, a + 2)
    decreases |s|
  {
    if s != [] {
      var x, t := s[0], s[1..];
      SortedTail(s, key);
      assert forall i :: 0 <= i < |t| ==> a <= key(t[i]) <= a + 2 by {
        forall i | 0 <= i < |t| ensures a <= key(t[i]) <= a + 2 {
          assert t[i] == s[i + 1];
        }
      }
      SortedSplitsIntoThreeKeys(t, key, a);
      GroupsCons(x, t, key, a);
      assert s == [x] + t;
    }
  }
}
