/**
 * The array operations of the JavaScript runtime that both core files use:
 * `filter`, `slice(0, end)` and the stable `sort` with a descending numeric
 * comparator `(a, b) => key(b) - key(a)`.
 */
module Seqs {

  function Min(a: int, b: int): int {
    if a < b then a else b
  }

  /** `s.filter(p)` */
  function Filter<T(!new)>(s: seq<T>, p: T -> bool): (r: seq<T>)
    ensures |r| <= |s|
    ensures forall x :: x in r <==> x in s && p(x)
  {
    if s == [] then [] else (if p(s[0]) then [s[0]] else []) + Filter(s[1..], p)
  }

  /** The end index `s.slice(0, end)` stops at: a negative `end` counts from
      the back, and the result never runs past either end. */
  /** `filter` keeps every occurrence of an element that passes the test and
      none of one that does not. */
  lemma {:induction false} FilterCounts<T(!new)>(s: seq<T>, p: T -> bool, x: T)
    ensures multiset(Filter(s, p))[x] == if p(x) then multiset(s)[x] else 0
  {
    if s != [] {
      FilterCounts(s[1..], p, x);
      assert s == [s[0]] + s[1..];
    }
  }

  function SliceEnd(n: nat, end: int): (k: nat)
    ensures k <= n
    ensures 0 <= end ==> k == Min(end, n)
  {
    if 0 <= end then Min(end, n) else if n + end > 0 then n + end else 0
  }

  /** `s.slice(0, end)` */
  function Prefix<T>(s: seq<T>, end: int): (r: seq<T>)
    ensures |r| <= |s| && r == s[..|r|]
    ensures 0 <= end ==> |r| == Min(end, |s|)
    ensures end < 0 ==> |r| + Min(-end, |s|) == |s|
  {
    s[..SliceEnd(|s|, end)]
  }

  /** `a` is `b` with some elements left out, the rest in their order. */
  predicate IsSubsequence<T(==)>(a: seq<T>, b: seq<T>) {
    a == [] || (b != [] && if a[0] == b[0] then IsSubsequence(a[1..], b[1..]) else IsSubsequence(a, b[1..]))
  }

  lemma {:induction false} FilterIsSubsequence<T(!new)>(s: seq<T>, p: T -> bool)
    ensures IsSubsequence(Filter(s, p), s)
  {
    if s != [] {
      FilterIsSubsequence(s[1..], p);
      var r := Filter(s, p);
      if p(s[0]) {
        assert r[0] == s[0] && r[1..] == Filter(s[1..], p);
      } else {
        assert r == Filter(s[1..], p);
        assert r != [] ==> r[0] in r;
      }
    }
  }

  predicate SortedDesc<T(!new)>(s: seq<T>, key: T -> int) {
    forall i, j :: 0 <= i < j < |s| ==> key(s[i]) >= key(s[j])
  }

  /** Inserts `x` before the first element whose key is not larger than its own. */
  function InsertDesc<T(!new)>(x: T, s: seq<T>, key: T -> int): (r: seq<T>)
    ensures |r| == |s| + 1
    ensures multiset(r) == multiset(s) + multiset{x}
  {
    if s == [] || key(s[0]) <= key(x) then [x] + s
    else
      assert s == [s[0]] + s[1..];
      [s[0]] + InsertDesc(x, s[1..], key)
  }

  lemma InsertMembers<T(!new)>(x: T, s: seq<T>, key: T -> int)
    ensures forall y :: y in InsertDesc(x, s, key) <==> y == x || y in s
  {
    var r := InsertDesc(x, s, key);
    forall y ensures y in r <==> y == x || y in s {
      assert y in r <==> y in multiset(r);
      assert y in s <==> y in multiset(s);
    }
  }

  /** Inserting into a sorted list keeps it sorted. */
  lemma {:induction false} InsertSorted<T(!new)>(x: T, s: seq<T>, key: T -> int)
    requires SortedDesc(s, key)
    ensures SortedDesc(InsertDesc(x, s, key), key)
  {
    if s != [] && key(s[0]) > key(x) {
      var tail := s[1..];
      assert SortedDesc(tail, key) by {
        forall i, j | 0 <= i < j < |tail| ensures key(tail[i]) >= key(tail[j]) {
          assert tail[i] == s[i + 1] && tail[j] == s[j + 1];
        }
      }
      InsertSorted(x, tail, key);
      InsertMembers(x, tail, key);
      var t := InsertDesc(x, tail, key);
      forall k | 0 <= k < |t| ensures key(t[k]) <= key(s[0]) {
        assert t[k] in t;
        if t[k] != x {
          var m :| 0 <= m < |tail| && tail[m] == t[k];
          assert s[m + 1] == t[k];
        }
      }
    }
  }

  /** The stable sort of `s` by descending key (insertion sort). */
  function SortDesc<T(!new)>(s: seq<T>, key: T -> int): (r: seq<T>)
    ensures |r| == |s|
    ensures multiset(r) == multiset(s)
    ensures forall y :: y in r <==> y in s
    ensures SortedDesc(r, key)
  {
    if s == [] then []
    else
      var t := SortDesc(s[1..], key);
      assert s == [s[0]] + s[1..];
      InsertSorted(s[0], t, key);
      InsertMembers(s[0], t, key);
      InsertDesc(s[0], t, key)
  }

  /** The elements of `s` whose key is `c`, in their order. */
  function WithKey<T(!new)>(s: seq<T>, key: T -> int, c: int): seq<T> {
    if s == [] then [] else (if key(s[0]) == c then [s[0]] else []) + WithKey(s[1..], key, c)
  }

  lemma {:induction false} InsertWithKey<T(!new)>(x: T, s: seq<T>, key: T -> int, c: int)
    ensures WithKey(InsertDesc(x, s, key), key, c) == (if key(x) == c then [x] else []) + WithKey(s, key, c)
  {
    if s == [] || key(s[0]) <= key(x) {
      assert ([x] + s)[1..] == s;
    } else {
      InsertWithKey(x, s[1..], key, c);
      InsertWithKeyBehind(x, s, key, c);
    }
  }

  lemma WithKeyCons<T(!new)>(y: T, t: seq<T>, key: T -> int, c: int)
    ensures WithKey([y] + t, key, c) == (if key(y) == c then [y] else []) + WithKey(t, key, c)
  {
    assert ([y] + t)[1..] == t;
  }

  /** `x` goes behind a head with a larger key, so at most one of the two is kept. */
  lemma InsertWithKeyBehind<T(!new)>(x: T, s: seq<T>, key: T -> int, c: int)
    requires s != [] && key(s[0]) > key(x)
    requires WithKey(InsertDesc(x, s[1..], key), key, c) == (if key(x) == c then [x] else []) + WithKey(s[1..], key, c)
    ensures WithKey(InsertDesc(x, s, key), key, c) == (if key(x) == c then [x] else []) + WithKey(s, key, c)
  {
    var t := InsertDesc(x, s[1..], key);
    assert InsertDesc(x, s, key) == [s[0]] + t;
    assert s == [s[0]] + s[1..];
    WithKeyCons(s[0], t, key, c);
    WithKeyCons(s[0], s[1..], key, c);
    var rest := WithKey(s[1..], key, c);
    if key(x) == c {
      assert WithKey(s, key, c) == rest;
      assert WithKey([s[0]] + t, key, c) == [x] + rest;
    } else {
      assert WithKey(t, key, c) == rest;
    }
  }

  /** Stability: elements with equal keys keep the order they had. */
  lemma {:induction false} SortStable<T(!new)>(s: seq<T>, key: T -> int, c: int)
    ensures WithKey(SortDesc(s, key), key, c) == WithKey(s, key, c)
  {
    if s != [] {
      SortStable(s[1..], key, c);
      InsertWithKey(s[0], SortDesc(s[1..], key), key, c);
    }
  }

  /** The elements with key `c` in a prefix are a prefix of those in the whole. */
  lemma {:induction false} WithKeyPrefix<T(!new)>(s: seq<T>, k: nat, key: T -> int, c: int)
    requires k <= |s|
    ensures WithKey(s[..k], key, c) <= WithKey(s, key, c)
  {
    if k > 0 {
      WithKeyPrefix(s[1..], k - 1, key, c);
      assert s[..k][0] == s[0] && s[..k][1..] == s[1..][..k - 1];
    }
  }

  lemma {:induction false} InsertCount<T(!new)>(x: T, s: seq<T>, key: T -> int, p: T -> bool)
    ensures |Filter(InsertDesc(x, s, key), p)| == |Filter(s, p)| + (if p(x) then 1 else 0)
  {
    if s == [] || key(s[0]) <= key(x) {
      assert ([x] + s)[1..] == s;
    } else {
      InsertCount(x, s[1..], key, p);
      var r := InsertDesc(x, s, key);
      assert r[0] == s[0] && r[1..] == InsertDesc(x, s[1..], key);
    }
  }

  /** Sorting keeps the number of elements that satisfy any predicate. */
  lemma {:induction false} SortCount<T(!new)>(s: seq<T>, key: T -> int, p: T -> bool)
    ensures |Filter(SortDesc(s, key), p)| == |Filter(s, p)|
  {
    if s != [] {
      SortCount(s[1..], key, p);
      InsertCount(s[0], SortDesc(s[1..], key), key, p);
    }
  }

  lemma {:induction false} PrefixIsSubsequence<T>(a: seq<T>, k: nat)
    requires k <= |a|
    ensures IsSubsequence(a[..k], a)
  {
    if k > 0 {
      PrefixIsSubsequence(a[1..], k - 1);
      assert a[..k][0] == a[0] && a[..k][1..] == a[1..][..k - 1];
    }
  }

  lemma {:induction false} SubsequenceCons<T>(x: seq<T>, c: seq<T>)
    requires c != [] && IsSubsequence(x, c[1..])
    ensures IsSubsequence(x, c)
    decreases |c|, 0
  {
    if x != [] && x[0] == c[0] {
      SubsequenceDropHead(x, c[1..]);
    }
  }

  lemma {:induction false} SubsequenceDropHead<T>(a: seq<T>, c: seq<T>)
    requires a != [] && IsSubsequence(a, c)
    ensures IsSubsequence(a[1..], c)
    decreases |c|, 1
  {
    if a[0] != c[0] {
      SubsequenceDropHead(a, c[1..]);
    }
    SubsequenceCons(a[1..], c);
  }

  lemma {:induction false} SubsequenceTrans<T>(a: seq<T>, b: seq<T>, c: seq<T>)
    requires IsSubsequence(a, b) && IsSubsequence(b, c)
    ensures IsSubsequence(a, c)
    decreases |c|
  {
    if a != [] {
      if b[0] == c[0] {
        if a[0] == b[0] {
          SubsequenceTrans(a[1..], b[1..], c[1..]);
        } else {
          SubsequenceTrans(a, b[1..], c[1..]);
        }
      } else {
        SubsequenceTrans(a, b, c[1..]);
        SubsequenceCons(a, c);
      }
    }
  }

  /** No two elements of `s` agree on `f`. */
  predicate DistinctBy<T(!new), U(==)>(s: seq<T>, f: T -> U) {
    forall i, j :: 0 <= i < j < |s| ==> f(s[i]) != f(s[j])
  }

  lemma DistinctByTail<T(!new), U>(s: seq<T>, f: T -> U)
    requires s != [] && DistinctBy(s, f)
    ensures DistinctBy(s[1..], f)
    ensures forall y :: y in s[1..] ==> f(y) != f(s[0])
  {
    var tail := s[1..];
    forall i, j | 0 <= i < j < |tail| ensures f(tail[i]) != f(tail[j]) {
      assert tail[i] == s[i + 1] && tail[j] == s[j + 1];
    }
    forall y | y in tail ensures f(y) != f(s[0]) {
      var k :| 0 <= k < |tail| && tail[k] == y;
      assert s[k + 1] == y;
    }
  }

  lemma DistinctByCons<T(!new), U>(x: T, t: seq<T>, f: T -> U)
    requires DistinctBy(t, f) && forall y :: y in t ==> f(y) != f(x)
    ensures DistinctBy([x] + t, f)
  {
    var r := [x] + t;
    forall i, j | 0 <= i < j < |r| ensures f(r[i]) != f(r[j]) {
      assert r[j] == t[j - 1] && r[j] in t;
      if i > 0 {
        assert r[i] == t[i - 1];
      }
    }
  }

  /** Filtering keeps elements distinct under any projection. */
  lemma {:induction false} FilterDistinctBy<T(!new), U>(s: seq<T>, p: T -> bool, f: T -> U)
    requires DistinctBy(s, f)
    ensures DistinctBy(Filter(s, p), f)
  {
    if s != [] {
      DistinctByTail(s, f);
      FilterDistinctBy(s[1..], p, f);
      if p(s[0]) {
        DistinctByCons(s[0], Filter(s[1..], p), f);
      }
    }
  }

  lemma {:induction false} InsertDistinctBy<T(!new), U>(x: T, s: seq<T>, key: T -> int, f: T -> U)
    requires DistinctBy(s, f) && forall y :: y in s ==> f(y) != f(x)
    ensures DistinctBy(InsertDesc(x, s, key), f)
  {
    if s == [] || key(s[0]) <= key(x) {
      DistinctByCons(x, s, f);
    } else {
      DistinctByTail(s, f);
      InsertDistinctBy(x, s[1..], key, f);
      InsertMembers(x, s[1..], key);
      DistinctByCons(s[0], InsertDesc(x, s[1..], key), f);
    }
  }

  /** Sorting keeps elements distinct under any projection. */
  lemma {:induction false} SortDistinctBy<T(!new), U>(s: seq<T>, key: T -> int, f: T -> U)
    requires DistinctBy(s, f)
    ensures DistinctBy(SortDesc(s, key), f)
  {
    if s != [] {
      DistinctByTail(s, f);
      SortDistinctBy(s[1..], key, f);
      InsertDistinctBy(s[0], SortDesc(s[1..], key), key, f);
    }
  }

  /** A list whose keys all equal `c` is its own `WithKey(_, _, c)`. */
  lemma {:induction false} WithKeyAll<T(!new)>(s: seq<T>, key: T -> int, c: int)
    requires forall i :: 0 <= i < |s| ==> key(s[i]) == c
    ensures WithKey(s, key, c) == s
  {
    if s != [] {
      WithKeyAll(s[1..], key, c);
    }
  }
}
