/** Filtering and ordering of sequences: the `WHERE` and `ORDER BY` of the store's queries and the
    LINQ `Where` of the dashboards. */
module Seqs {

  /** `xs` restricted to the elements satisfying `p`, in their original order. */
  function Filter<T(!new)>(xs: seq<T>, p: T -> bool): (r: seq<T>)
    ensures |r| <= |xs|
    ensures forall x :: x in r <==> x in xs && p(x)
  {
    if xs == [] then []
    else if p(xs[0]) then [xs[0]] + Filter(xs[1..], p)
    else Filter(xs[1..], p)
  }

  /** Filtering keeps exactly the copies of the elements that pass. */
  lemma {:induction false} FilterCount<T(!new)>(xs: seq<T>, p: T -> bool, x: T)
    ensures multiset(Filter(xs, p))[x] == if p(x) then multiset(xs)[x] else 0
  {
    if xs != [] {
      FilterCount(xs[1..], p, x);
      assert xs == [xs[0]] + xs[1..];
    }
  }

  /** Filtering two arrangements of the same elements gives two arrangements of the same
      elements. */
  lemma FilterSameElements<T(!new)>(xs: seq<T>, ys: seq<T>, p: T -> bool)
    requires multiset(xs) == multiset(ys)
    ensures multiset(Filter(xs, p)) == multiset(Filter(ys, p))
  {
    forall x ensures multiset(Filter(xs, p))[x] == multiset(Filter(ys, p))[x] {
      FilterCount(xs, p, x);
      FilterCount(ys, p, x);
    }
  }

  /** A predicate and its complement split a sequence's elements between them. */
  lemma FilterComplement<T(!new)>(xs: seq<T>, p: T -> bool, q: T -> bool)
    requires forall x :: q(x) == !p(x)
    ensures multiset(Filter(xs, p)) + multiset(Filter(xs, q)) == multiset(xs)
  {
    forall x ensures (multiset(Filter(xs, p)) + multiset(Filter(xs, q)))[x] == multiset(xs)[x] {
      FilterCount(xs, p, x);
      FilterCount(xs, q, x);
    }
  }

  /** Filtering, copy by copy, for every element at once. */
  lemma FilterMultiset<T(!new)>(xs: seq<T>, p: T -> bool)
    ensures forall x :: multiset(Filter(xs, p))[x] == if p(x) then multiset(xs)[x] else 0
  {
    forall x ensures multiset(Filter(xs, p))[x] == if p(x) then multiset(xs)[x] else 0 {
      FilterCount(xs, p, x);
    }
  }

  ghost predicate SortedBy<T>(xs: seq<T>, key: T -> int) {
    forall i, j :: 0 <= i < j < |xs| ==> key(xs[i]) <= key(xs[j])
  }

  /** Filtering keeps a sequence in order. */
  lemma {:induction false} FilterSorted<T(!new)>(xs: seq<T>, p: T -> bool, key: T -> int)
    requires SortedBy(xs, key)
    ensures SortedBy(Filter(xs, p), key)
  {
    if xs != [] {
      FilterSorted(xs[1..], p, key);
      var rest := Filter(xs[1..], p);
      forall y | y in rest ensures key(xs[0]) <= key(y) {
        var j :| 0 <= j < |xs[1..]| && xs[1..][j] == y;
        assert xs[j + 1] == y;
      }
    }
  }

  ghost predicate StrictlySortedBy<T>(xs: seq<T>, key: T -> int) {
    forall i, j :: 0 <= i < j < |xs| ==> key(xs[i]) < key(xs[j])
  }

  /** Filtering keeps a sequence in strictly increasing order. */
  lemma {:induction false} FilterStrictlySorted<T(!new)>(xs: seq<T>, p: T -> bool, key: T -> int)
    requires StrictlySortedBy(xs, key)
    ensures StrictlySortedBy(Filter(xs, p), key)
  {
    if xs != [] {
      FilterStrictlySorted(xs[1..], p, key);
      var rest := Filter(xs[1..], p);
      forall y | y in rest ensures key(xs[0]) < key(y) {
        var j :| 0 <= j < |xs[1..]| && xs[1..][j] == y;
        assert xs[j + 1] == y;
      }
    }
  }

  /** A sequence in strictly increasing key order holds each of its elements once. */
  lemma {:induction false} StrictlySortedOnce<T>(xs: seq<T>, key: T -> int)
    requires StrictlySortedBy(xs, key)
    ensures forall x :: multiset(xs)[x] == if x in xs then 1 else 0
  {
    if xs != [] {
      StrictlySortedOnce(xs[1..], key);
      assert xs == [xs[0]] + xs[1..];
      assert xs[0] !in xs[1..] by {
        forall j | 0 <= j < |xs[1..]| ensures xs[1..][j] != xs[0] {
          assert key(xs[0]) < key(xs[j + 1]);
        }
      }
    }
  }

  /** In an ordered sequence no element has a smaller key than the first. */
  lemma SortedHead<T>(xs: seq<T>, key: T -> int, y: T)
    requires SortedBy(xs, key) && y in xs
    ensures key(xs[0]) <= key(y)
  {
    var j :| 0 <= j < |xs| && xs[j] == y;
  }

  /** Inserts `x` in front of the first element with a larger key. */
  function Insert<T(!new)>(x: T, xs: seq<T>, key: T -> int): (r: seq<T>)
    requires SortedBy(xs, key)
    ensures SortedBy(r, key)
    ensures multiset(r) == multiset(xs) + multiset{x}
    ensures forall y :: y in r <==> y == x || y in xs
  {
    if xs == [] then [x]
    else if key(x) <= key(xs[0]) then
      assert forall y :: y in xs ==> key(x) <= key(y) by {
        forall y | y in xs ensures key(x) <= key(y) { SortedHead(xs, key, y); }
      }
      [x] + xs
    else
      var rest := Insert(x, xs[1..], key);
      assert xs == [xs[0]] + xs[1..];
      assert forall y :: y in rest ==> key(xs[0]) <= key(y) by {
        forall y | y in rest ensures key(xs[0]) <= key(y) {
          if y != x { SortedHead(xs, key, y); }
        }
      }
      [xs[0]] + rest
  }

  /** Insertion sort by an integer key: the result is ordered and a permutation of `xs`. */
  function SortBy<T(!new)>(xs: seq<T>, key: T -> int): (r: seq<T>)
    ensures SortedBy(r, key)
    ensures multiset(r) == multiset(xs)
    ensures forall y :: y in r <==> y in xs
  {
    if xs == [] then []
    else
      assert xs == [xs[0]] + xs[1..];
      Insert(xs[0], SortBy(xs[1..], key), key)
  }

  /** The keys of a table below `n` in ascending order, as a scan by primary key returns them
      (ids are handed out from 1 upwards, so `n` is the next id to be issued). */
  function KeysBelow<T>(m: map<int, T>, n: int): (r: seq<int>)
    ensures forall i, j :: 0 <= i < j < |r| ==> r[i] < r[j]
    ensures forall k :: k in r <==> 0 < k < n && k in m
    decreases n
  {
    if n <= 1 then []
    else
      var rest := KeysBelow(m, n - 1);
      assert forall i :: 0 <= i < |rest| ==> rest[i] in rest && rest[i] < n - 1;
      if n - 1 in m then rest + [n - 1] else rest
  }

  /** The rows of a table with keys below `n`, in ascending key order. */
  function Rows<T(==,!new)>(m: map<int, T>, n: int): (r: seq<T>)
    ensures forall k :: 0 < k < n && k in m ==> m[k] in r
    ensures forall y :: y in r ==> y in m.Values
    ensures (forall k :: k in m ==> 0 < k < n) ==> forall y :: y in r <==> y in m.Values
  {
    var keys := KeysBelow(m, n);
    var r := seq(|keys|, i requires 0 <= i < |keys| => m[keys[i]]);
    assert forall k :: 0 < k < n && k in m ==> m[k] in r by {
      forall k | 0 < k < n && k in m ensures m[k] in r {
        var i :| 0 <= i < |keys| && keys[i] == k;
        assert r[i] == m[k];
      }
    }
    assert forall y :: y in r ==> y in m.Values by {
      forall y | y in r ensures y in m.Values {
        var i :| 0 <= i < |r| && r[i] == y;
        assert keys[i] in keys;
      }
    }
    assert forall y :: y in m.Values ==> exists k :: k in m && m[k] == y;
    r
  }
}
