/** The Python list operations the core relies on: `list.remove`, the stable
    built-in `sorted`, and a description of how one list is split into two
    order-preserving parts. */
module Lists {

  /** `s.remove(x)`: drops the first element equal to `x` (the list is left
      alone when there is none; the core only removes present elements). */
  function RemoveFirst<T(==)>(s: seq<T>, x: T): seq<T> {
    if s == [] then []
    else if s[0] == x then s[1..]
    else [s[0]] + RemoveFirst(s[1..], x)
  }

  /** `remove` takes away exactly one copy of a present element. */
  lemma {:induction false} RemoveFirstMultiset<T>(s: seq<T>, x: T)
    ensures x in s ==> multiset(RemoveFirst(s, x)) == multiset(s) - multiset{x}
    ensures x !in s ==> RemoveFirst(s, x) == s
  {
    if s != [] {
      assert s == [s[0]] + s[1..];
      if s[0] != x {
        RemoveFirstMultiset(s[1..], x);
      }
    }
  }

  /** Removing the first occurrence at `j` is cutting index `j` out. */
  lemma {:induction false} RemoveFirstAt<T>(s: seq<T>, j: nat)
    requires j < |s|
    requires forall p :: 0 <= p < j ==> s[p] != s[j]
    ensures RemoveFirst(s, s[j]) == s[..j] + s[j + 1..]
  {
    if j > 0 {
      assert s[1..][j - 1] == s[j];
      RemoveFirstAt(s[1..], j - 1);
      assert s[1..][..j - 1] == s[1..j];
      assert s[1..][j..] == s[j + 1..];
      assert [s[0]] + s[1..j] == s[..j];
    }
  }

  /** Keys of `s` never decrease from left to right. */
  ghost predicate SortedBy<T>(s: seq<T>, key: T -> real) {
    forall i, j :: 0 <= i < j < |s| ==> key(s[i]) <= key(s[j])
  }

  /** The tail of a sorted list is sorted and no key in it is below the head's. */
  lemma SortedByTail<T>(s: seq<T>, key: T -> real)
    requires s != [] && SortedBy(s, key)
    ensures SortedBy(s[1..], key)
    ensures forall x :: x in s[1..] ==> key(s[0]) <= key(x)
  {
    forall i, j | 0 <= i < j < |s[1..]| ensures key(s[1..][i]) <= key(s[1..][j]) {
      assert s[1..][i] == s[i + 1] && s[1..][j] == s[j + 1];
    }
    forall x | x in s[1..] ensures key(s[0]) <= key(x) {
      var q :| 0 <= q < |s[1..]| && s[1..][q] == x;
      assert s[q + 1] == x;
    }
  }

  /** One insertion step of a stable sort: `x` goes in front of the first
      element whose key is not smaller, so before every equal key. */
  function InsertBy<T>(x: T, s: seq<T>, key: T -> real): (r: seq<T>)
    ensures multiset(r) == multiset(s) + multiset{x}
  {
    if s == [] then [x]
    else if key(x) <= key(s[0]) then [x] + s
    else
      assert s == [s[0]] + s[1..];
      [s[0]] + InsertBy(x, s[1..], key)
  }

  /** A head no larger than any key of a sorted tail keeps the list sorted. */
  lemma SortedCons<T>(x: T, s: seq<T>, key: T -> real)
    requires SortedBy(s, key)
    requires forall y :: y in s ==> key(x) <= key(y)
    ensures SortedBy([x] + s, key)
  {
    var r := [x] + s;
    forall i, j | 0 <= i < j < |r| ensures key(r[i]) <= key(r[j]) {
      if i == 0 {
        assert r[j] == s[j - 1] && r[j] in s;
      } else {
        assert r[i] == s[i - 1] && r[j] == s[j - 1];
      }
    }
  }

  /** Inserting keeps every key at least `lo` when all of them were. */
  lemma InsertByBounded<T>(x: T, s: seq<T>, key: T -> real, lo: real)
    requires lo <= key(x) && forall y :: y in s ==> lo <= key(y)
    ensures forall y :: y in InsertBy(x, s, key) ==> lo <= key(y)
  {
    forall y | y in InsertBy(x, s, key) ensures lo <= key(y) {
      assert y in multiset(InsertBy(x, s, key));
      assert y == x || y in multiset(s);
    }
  }

  lemma {:induction false} InsertBySorted<T>(x: T, s: seq<T>, key: T -> real)
    requires SortedBy(s, key)
    ensures SortedBy(InsertBy(x, s, key), key)
  {
    if s == [] {
      SortedCons(x, [], key);
    } else if key(x) <= key(s[0]) {
      SortedByTail(s, key);
      SortedCons(x, s, key);
    } else {
      SortedByTail(s, key);
      InsertBySorted(x, s[1..], key);
      InsertByBounded(x, s[1..], key, key(s[0]));
      SortedCons(s[0], InsertBy(x, s[1..], key), key);
    }
  }

  /** A prefix `a` followed by `x`, read back at the split point. */
  lemma PrefixStep<T>(s: seq<T>, a: seq<T>, x: T)
    requires |s| > |a| && s[..|a| + 1] == a + [x]
    ensures s[..|a|] == a && s[|a|] == x && s[|a|..] == [x] + s[|a| + 1..]
  {
    assert s[..|a|] == s[..|a| + 1][..|a|];
    assert s[|a|] == s[..|a| + 1][|a|];
  }

  /** Python's `sorted(s, key=key)`: ascending, stable. A descending sort
      (`reverse=True`, which Python keeps stable) is `SortBy` on the negated key. */
  function SortBy<T>(s: seq<T>, key: T -> real): (r: seq<T>)
    ensures multiset(r) == multiset(s) && |r| == |s|
  {
    if s == [] then []
    else
      assert s == [s[0]] + s[1..];
      InsertBy(s[0], SortBy(s[1..], key), key)
  }

  /** `sorted` returns its input in ascending key order. */
  lemma {:induction false} SortBySorted<T>(s: seq<T>, key: T -> real)
    ensures SortedBy(SortBy(s, key), key)
  {
    if s != [] {
      SortBySorted(s[1..], key);
      InsertBySorted(s[0], SortBy(s[1..], key), key);
    }
  }

  /** The elements of `s` whose key is `k`, in their order in `s`. */
  function WithKey<T>(s: seq<T>, key: T -> real, k: real): seq<T> {
    if s == [] then []
    else (if key(s[0]) == k then [s[0]] else []) + WithKey(s[1..], key, k)
  }

  lemma WithKeyCons<T>(x: T, s: seq<T>, key: T -> real, k: real)
    ensures WithKey([x] + s, key, k) == (if key(x) == k then [x] else []) + WithKey(s, key, k)
  {
    assert ([x] + s)[0] == x && ([x] + s)[1..] == s;
  }

  /** Two heads of which one is empty can be swapped. */
  lemma SwapHeads<T>(a: seq<T>, b: seq<T>, t: seq<T>)
    requires a == [] || b == []
    ensures a + (b + t) == b + (a + t)
  {
    if a == [] {
      assert a + (b + t) == b + t;
    } else {
      assert b + (a + t) == a + t;
    }
  }

  lemma {:induction false} InsertByStable<T>(x: T, s: seq<T>, key: T -> real, k: real)
    ensures WithKey(InsertBy(x, s, key), key, k)
         == (if key(x) == k then [x] else []) + WithKey(s, key, k)
  {
    if s == [] || key(x) <= key(s[0]) {
      WithKeyCons(x, s, key, k);
    } else {
      var rest := InsertBy(x, s[1..], key);
      var w := WithKey(s[1..], key, k);
      InsertByStable(x, s[1..], key, k);
      WithKeyCons(s[0], rest, key, k);
      assert s == [s[0]] + s[1..];
      WithKeyCons(s[0], s[1..], key, k);
      SwapHeads(if key(s[0]) == k then [s[0]] else [], if key(x) == k then [x] else [], w);
    }
  }

  /** Stability of `sorted`: elements with equal keys keep their input order. */
  lemma {:induction false} SortByStable<T>(s: seq<T>, key: T -> real, k: real)
    ensures WithKey(SortBy(s, key), key, k) == WithKey(s, key, k)
  {
    if s != [] {
      SortByStable(s[1..], key, k);
      InsertByStable(s[0], SortBy(s[1..], key), key, k);
    }
  }

  /** `SortByStable` for a list already known to be the sorted one. */
  lemma SortedStable<T>(r: seq<T>, s: seq<T>, key: T -> real, k: real)
    requires r == SortBy(s, key)
    ensures WithKey(r, key, k) == WithKey(s, key, k)
  {
    SortByStable(s, key, k);
  }

  /** `q` is split into `a` and `b`: every element of `q` goes to exactly one
      of them and both keep the order of `q`. */
  predicate Interleaves<T(==)>(q: seq<T>, a: seq<T>, b: seq<T>)
    decreases |q|
  {
    if q == [] then a == [] && b == []
    else
      || (|a| > 0 && a[0] == q[0] && Interleaves(q[1..], a[1..], b))
      || (|b| > 0 && b[0] == q[0] && Interleaves(q[1..], a, b[1..]))
  }

  /** An element in front of the list goes to the first part ... */
  lemma InterleavesConsLeft<T>(x: T, q: seq<T>, a: seq<T>, b: seq<T>)
    requires Interleaves(q, a, b)
    ensures Interleaves([x] + q, [x] + a, b)
  {
    assert ([x] + q)[1..] == q && ([x] + a)[1..] == a;
  }

  /** ... or to the second. */
  lemma InterleavesConsRight<T>(x: T, q: seq<T>, a: seq<T>, b: seq<T>)
    requires Interleaves(q, a, b)
    ensures Interleaves([x] + q, a, [x] + b)
  {
    assert ([x] + q)[1..] == q && ([x] + b)[1..] == b;
  }

  /** Nothing is lost or duplicated by an interleaving. */
  lemma {:induction false} InterleavesMultiset<T>(q: seq<T>, a: seq<T>, b: seq<T>)
    requires Interleaves(q, a, b)
    ensures multiset(q) == multiset(a) + multiset(b)
  {
    if q != [] {
      if |a| > 0 && a[0] == q[0] && Interleaves(q[1..], a[1..], b) {
        InterleavesMultiset(q[1..], a[1..], b);
        assert q == [q[0]] + q[1..] && a == [a[0]] + a[1..];
      } else {
        InterleavesMultiset(q[1..], a, b[1..]);
        assert q == [q[0]] + q[1..] && b == [b[0]] + b[1..];
      }
    }
  }

  /** Both parts of an interleaving of a sorted list are sorted. */
  lemma {:induction false} InterleavesSorted<T>(q: seq<T>, a: seq<T>, b: seq<T>, key: T -> real)
    requires Interleaves(q, a, b)
    requires SortedBy(q, key)
    ensures SortedBy(a, key) && SortedBy(b, key)
  {
    if q != [] {
      SortedByTail(q, key);
      if |a| > 0 && a[0] == q[0] && Interleaves(q[1..], a[1..], b) {
        InterleavesSorted(q[1..], a[1..], b, key);
        InterleavesBounded(q[1..], a[1..], b, key, key(q[0]));
        SortedCons(a[0], a[1..], key);
        assert a == [a[0]] + a[1..];
      } else {
        InterleavesSorted(q[1..], a, b[1..], key);
        InterleavesBounded(q[1..], a, b[1..], key, key(q[0]));
        SortedCons(b[0], b[1..], key);
        assert b == [b[0]] + b[1..];
      }
    }
  }

  /** A lower bound on every key of `q` bounds both parts. */
  lemma InterleavesBounded<T>(q: seq<T>, a: seq<T>, b: seq<T>, key: T -> real, lo: real)
    requires Interleaves(q, a, b)
    requires forall x :: x in q ==> lo <= key(x)
    ensures forall x :: x in a ==> lo <= key(x)
    ensures forall x :: x in b ==> lo <= key(x)
  {
    InterleavesMultiset(q, a, b);
    forall x | x in a ensures lo <= key(x) {
      assert x in multiset(q);
    }
    forall x | x in b ensures lo <= key(x) {
      assert x in multiset(q);
    }
  }
}
