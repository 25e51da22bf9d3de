/** Sequence operations that stand for the store's `.eq`/`.is` filters and
    `.order` clauses and for `Array.prototype.filter`. */
module Seqs {

  /** `xs.filter(p)`: the elements satisfying `p`, in their original order. */
  function Filter<T(!new)>(xs: seq<T>, p: T -> bool): (r: seq<T>)
    ensures |r| <= |xs|
    ensures forall x :: x in r <==> x in xs && p(x)
    ensures multiset(r) <= multiset(xs)
  {
    if xs == [] then []
    else
      assert xs == [xs[0]] + xs[1..];
      if p(xs[0]) then [xs[0]] + Filter(xs[1..], p)
      else Filter(xs[1..], p)
  }

  /** `a` is `b` with some elements left out and the rest in their order. */
  predicate IsSubsequence<T(==)>(a: seq<T>, b: seq<T>)
    decreases |b|
  {
    if a == [] then true
    else if b == [] then false
    else if a[0] == b[0] then IsSubsequence(a[1..], b[1..])
    else IsSubsequence(a, b[1..])
  }

  /** A filter keeps a subsequence of its input. */
  lemma {:induction false} FilterIsSubsequence<T(!new)>(xs: seq<T>, p: T -> bool)
    ensures IsSubsequence(Filter(xs, p), xs)
  {
    if xs != [] {
      FilterIsSubsequence(xs[1..], p);
      var r := Filter(xs, p);
      if !p(xs[0]) && r != [] {
        assert r[0] in r;
      }
    }
  }

  /** A filter keeps every copy of an element it accepts and no copy of
      one it rejects. */
  lemma {:induction false} FilterMultiplicity<T(!new)>(xs: seq<T>, p: T -> bool, x: T)
    ensures multiset(Filter(xs, p))[x] == if p(x) then multiset(xs)[x] else 0
  {
    if xs != [] {
      FilterMultiplicity(xs[1..], p, x);
      var rest := Filter(xs[1..], p);
      assert xs == [xs[0]] + xs[1..];
      assert multiset(xs) == multiset{xs[0]} + multiset(xs[1..]);
      if p(xs[0]) {
        assert Filter(xs, p) == [xs[0]] + rest;
        assert multiset(Filter(xs, p)) == multiset{xs[0]} + multiset(rest);
      } else {
        assert Filter(xs, p) == rest;
      }
    }
  }

  /** Filtering distributes over concatenation, so it keeps the input's
      order. */
  lemma {:induction false} FilterAppend<T(!new)>(a: seq<T>, b: seq<T>, p: T -> bool)
    ensures Filter(a + b, p) == Filter(a, p) + Filter(b, p)
  {
    if a != [] {
      assert (a + b)[0] == a[0] && (a + b)[1..] == a[1..] + b;
      FilterAppend(a[1..], b, p);
      var tail := Filter(a[1..], p) + Filter(b, p);
      if p(a[0]) {
        assert Filter(a + b, p) == [a[0]] + tail;
        assert Filter(a, p) == [a[0]] + Filter(a[1..], p);
      } else {
        assert Filter(a + b, p) == tail;
        assert Filter(a, p) == Filter(a[1..], p);
      }
    } else {
      assert a + b == b;
    }
  }

  /** A predicate that holds of every element filters nothing out. */
  lemma {:induction false} FilterAll<T(!new)>(xs: seq<T>, p: T -> bool)
    requires forall x :: x in xs ==> p(x)
    ensures Filter(xs, p) == xs
  {
    if xs != [] {
      FilterAll(xs[1..], p);
    }
  }

  /** Filtering out everything leaves nothing. */
  lemma {:induction false} FilterNone<T(!new)>(xs: seq<T>, p: T -> bool)
    requires forall x :: x in xs ==> !p(x)
    ensures Filter(xs, p) == []
  {
    if xs != [] {
      FilterNone(xs[1..], p);
    }
  }

  /** Filtering with `p` and then with `q` is filtering with both. */
  lemma {:induction false} FilterFilter<T(!new)>(xs: seq<T>, p: T -> bool, q: T -> bool, both: T -> bool)
    requires forall x :: both(x) == (p(x) && q(x))
    ensures Filter(Filter(xs, p), q) == Filter(xs, both)
  {
    if xs != [] {
      FilterFilter(xs[1..], p, q, both);
    }
  }

  /** Number of elements satisfying `p`: what an exact `count` query returns. */
  function Count<T(!new)>(xs: seq<T>, p: T -> bool): (n: nat)
    ensures n == |Filter(xs, p)|
  {
    |Filter(xs, p)|
  }

  /** `le` is a total preorder: the comparison an `.order(...)` clause
      sorts by. */
  ghost predicate TotalPreorder<T(!new)>(le: (T, T) -> bool) {
    && (forall a, b :: le(a, b) || le(b, a))
    && (forall a, b, c :: le(a, b) && le(b, c) ==> le(a, c))
  }

  predicate SortedBy<T>(xs: seq<T>, le: (T, T) -> bool) {
    forall i, j :: 0 <= i < j < |xs| ==> le(xs[i], xs[j])
  }

  /** Inserts `x` after every element that is not strictly after it, so
      that equal elements keep their arrival order. */
  function Insert<T>(x: T, xs: seq<T>, le: (T, T) -> bool): (r: seq<T>)
    ensures multiset(r) == multiset(xs) + multiset{x}
    ensures |r| == |xs| + 1
  {
    if xs == [] then [x]
    else if !le(xs[0], x) then [x] + xs
    else
      assert xs == [xs[0]] + xs[1..];
      [xs[0]] + Insert(x, xs[1..], le)
  }

  /** Insertion keeps a sorted sequence sorted. */
  lemma {:induction false} InsertSorted<T(!new)>(x: T, xs: seq<T>, le: (T, T) -> bool)
    requires TotalPreorder(le) && SortedBy(xs, le)
    ensures SortedBy(Insert(x, xs, le), le)
  {
    if xs == [] {
    } else if !le(xs[0], x) {
      assert le(x, xs[0]);
      forall k | 0 <= k < |xs| ensures le(x, xs[k]) {
        if k > 0 { assert le(xs[0], xs[k]); }
      }
    } else {
      var rest := Insert(x, xs[1..], le);
      InsertSorted(x, xs[1..], le);
      forall k | 0 <= k < |rest| ensures le(xs[0], rest[k]) {
        var y := rest[k];
        assert y in multiset(rest);
        if y != x {
          assert y in multiset(xs[1..]);
          assert y in xs[1..];
        }
      }
    }
  }

  /** Insertion sort under `le`: what `.order(...)` returns. */
  function Sort<T>(xs: seq<T>, le: (T, T) -> bool): (r: seq<T>)
    ensures multiset(r) == multiset(xs)
    ensures |r| == |xs|
  {
    if xs == [] then []
    else
      assert xs == xs[..|xs| - 1] + [xs[|xs| - 1]];
      Insert(xs[|xs| - 1], Sort(xs[..|xs| - 1], le), le)
  }

  /** The sorted sequence is in order. */
  lemma {:induction false} SortSorted<T(!new)>(xs: seq<T>, le: (T, T) -> bool)
    requires TotalPreorder(le)
    ensures SortedBy(Sort(xs, le), le)
  {
    if xs != [] {
      SortSorted(xs[..|xs| - 1], le);
      InsertSorted(xs[|xs| - 1], Sort(xs[..|xs| - 1], le), le);
    }
  }

  /** Two sequences with the same elements contain the same values. */
  lemma SameMembers<T>(a: seq<T>, b: seq<T>)
    requires multiset(a) == multiset(b)
    ensures forall x :: x in a <==> x in b
  {
    forall x ensures x in a <==> x in b {
      assert x in a <==> x in multiset(a);
      assert x in b <==> x in multiset(b);
    }
  }

  /** No two positions hold elements with the same key. */
  ghost predicate DistinctBy<T, K>(xs: seq<T>, key: T -> K) {
    forall i, j :: 0 <= i < j < |xs| ==> key(xs[i]) != key(xs[j])
  }

  /** A sequence with distinct keys has each element exactly once. */
  lemma {:induction false} DistinctByMultiplicity<T, K>(xs: seq<T>, key: T -> K, x: T)
    requires DistinctBy(xs, key) && x in xs
    ensures multiset(xs)[x] == 1
  {
    if xs != [] {
      assert xs == [xs[0]] + xs[1..];
      assert DistinctBy(xs[1..], key);
      if xs[0] == x {
        assert x !in xs[1..];
      } else {
        DistinctByMultiplicity(xs[1..], key, x);
      }
    }
  }

  /** A value at two positions occurs at least twice. */
  lemma RepeatedMultiplicity<T>(ys: seq<T>, i: nat, j: nat)
    requires i < j < |ys| && ys[i] == ys[j]
    ensures multiset(ys)[ys[i]] >= 2
  {
    assert ys == ys[..j] + [ys[j]] + ys[j + 1..];
    assert ys[i] in ys[..j];
    assert multiset(ys) == multiset(ys[..j]) + multiset{ys[j]} + multiset(ys[j + 1..]);
  }

  /** Reordering keeps keys distinct when distinct values of the input
      also have distinct keys. */
  lemma DistinctByPermutation<T, K>(xs: seq<T>, ys: seq<T>, key: T -> K)
    requires DistinctBy(xs, key)
    requires multiset(ys) == multiset(xs)
    ensures DistinctBy(ys, key)
  {
    forall i, j | 0 <= i < j < |ys| ensures key(ys[i]) != key(ys[j]) {
      var a, b := ys[i], ys[j];
      assert a in multiset(xs) && b in multiset(xs);
      assert a in xs && b in xs;
      var p :| 0 <= p < |xs| && xs[p] == a;
      var q :| 0 <= q < |xs| && xs[q] == b;
      if a == b {
        RepeatedMultiplicity(ys, i, j);
        DistinctByMultiplicity(xs, key, a);
      } else {
        assert p != q;
      }
    }
  }

  /** Filtering keeps keys distinct. */
  lemma {:induction false} DistinctByFilter<T(!new), K>(xs: seq<T>, p: T -> bool, key: T -> K)
    requires DistinctBy(xs, key)
    ensures DistinctBy(Filter(xs, p), key)
  {
    if xs != [] {
      DistinctByFilter(xs[1..], p, key);
      var rest := Filter(xs[1..], p);
      if p(xs[0]) {
        forall k | 0 <= k < |rest| ensures key(xs[0]) != key(rest[k]) {
          assert rest[k] in xs[1..];
        }
      }
    }
  }

  function Min(a: int, b: int): int { if a <= b then a else b }

  /** `.range(from, to)`: the positions from `from` to `to`, both
      included, that exist. */
  function Range<T>(xs: seq<T>, from: nat, to: int): (r: seq<T>)
    ensures |r| == if from < |xs| && from <= to then Min(to + 1, |xs|) - from else 0
    ensures forall i :: 0 <= i < |r| ==> from + i <= to && r[i] == xs[from + i]
  {
    if from >= |xs| || to < from then [] else xs[from..Min(to + 1, |xs|)]
  }

  /** Two ranges that do not overlap share no key when the keys are
      distinct. */
  lemma RangesDisjoint<T, K>(xs: seq<T>, key: T -> K, from1: nat, to1: int, from2: nat, to2: int)
    requires DistinctBy(xs, key) && to1 < from2
    ensures var a, b := Range(xs, from1, to1), Range(xs, from2, to2);
      forall i, j :: 0 <= i < |a| && 0 <= j < |b| ==> key(a[i]) != key(b[j])
  {
    var a, b := Range(xs, from1, to1), Range(xs, from2, to2);
    forall i, j | 0 <= i < |a| && 0 <= j < |b| ensures key(a[i]) != key(b[j]) {
      assert a[i] == xs[from1 + i] && b[j] == xs[from2 + j];
    }
  }

  /** Filtering a sequence with distinct keys by a predicate that only
      `x` (among the keys) satisfies leaves `x` alone. */
  lemma {:induction false} FilterSingleton<T(!new), K>(xs: seq<T>, key: T -> K, p: T -> bool, x: T)
    requires DistinctBy(xs, key) && x in xs && p(x)
    requires forall y :: p(y) ==> key(y) == key(x)
    ensures Filter(xs, p) == [x]
  {
    assert DistinctBy(xs[1..], key);
    if xs[0] == x {
      forall y | y in xs[1..] ensures !p(y) {
        var k :| 0 <= k < |xs[1..]| && xs[1..][k] == y;
        assert key(xs[0]) != key(xs[k + 1]);
      }
      FilterNone(xs[1..], p);
    } else {
      FilterSingleton(xs[1..], key, p, x);
    }
  }

  /** Appending an element whose key is new keeps keys distinct. */
  lemma DistinctByAppend<T, K>(xs: seq<T>, key: T -> K, x: T)
    requires DistinctBy(xs, key)
    requires forall i :: 0 <= i < |xs| ==> key(xs[i]) != key(x)
    ensures DistinctBy(xs + [x], key)
  {
    var ys := xs + [x];
    forall i, j | 0 <= i < j < |ys| ensures key(ys[i]) != key(ys[j]) {
      if j == |xs| {
        assert ys[i] == xs[i] && ys[j] == x;
      } else {
        assert ys[i] == xs[i] && ys[j] == xs[j];
      }
    }
  }

  /** Filtering twice by the same predicate is filtering once. */
  lemma {:induction false} FilterIdempotent<T(!new)>(xs: seq<T>, p: T -> bool)
    ensures Filter(Filter(xs, p), p) == Filter(xs, p)
  {
    FilterAll(Filter(xs, p), p);
  }

  /** Appending an element the predicate rejects filters to the same. */
  lemma FilterAppendRejected<T(!new)>(xs: seq<T>, x: T, p: T -> bool)
    requires !p(x)
    ensures Filter(xs + [x], p) == Filter(xs, p)
  {
    FilterAppend(xs, [x], p);
    assert Filter([x], p) == [];
  }

  /** Sequences that agree under `p` agree under any narrower `q`. */
  lemma FilterNarrower<T(!new)>(a: seq<T>, b: seq<T>, p: T -> bool, q: T -> bool)
    requires Filter(a, p) == Filter(b, p)
    requires forall x :: q(x) ==> p(x)
    ensures Filter(a, q) == Filter(b, q)
  {
    FilterFilter(a, p, q, q);
    FilterFilter(b, p, q, q);
  }
}
