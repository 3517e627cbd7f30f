/**
  Shared vocabulary: an optional value, the in-order filter that
  `Array.prototype.filter` computes, subsequences, duplicate-freedom and the
  "first n, then a +k badge" truncation the pages use for long lists.
 */
module Common {

  datatype Option<T> = None | Some(value: T)

  /** The elements of `xs` satisfying `p`, in their original order. */
  function Filter<T(==,!new)>(xs: seq<T>, p: T -> bool): (r: seq<T>)
    ensures |r| <= |xs|
    ensures forall x :: x in r <==> x in xs && p(x)
    ensures Subsequence(r, xs)
  {
    if xs == [] then []
    else if p(xs[0]) then [xs[0]] + Filter(xs[1..], p)
    else Filter(xs[1..], p)
  }

  /** Each value kept occurs as often as in `xs`; a value failing `p` does not occur at all. */
  lemma {:induction false} FilterCounts<T(!new)>(xs: seq<T>, p: T -> bool)
    ensures forall x :: multiset(Filter(xs, p))[x] == if p(x) then multiset(xs)[x] else 0
  {
    if xs != [] {
      FilterCounts(xs[1..], p);
      assert xs == [xs[0]] + xs[1..];
    }
  }

  /**
    `a` can be obtained from `b` by deleting elements. Matching the head of `a`
    against the first equal element of `b` is complete, so the greedy test
    below decides the relation.
   */
  predicate Subsequence<T(==)>(a: seq<T>, b: seq<T>)
    decreases |b|
  {
    if a == [] then true
    else if b == [] then false
    else if a[0] == b[0] then Subsequence(a[1..], b[1..])
    else Subsequence(a, b[1..])
  }

  /** No element occurs twice. */
  predicate NoDup<T(==)>(xs: seq<T>) {
    forall i, j :: 0 <= i < j < |xs| ==> xs[i] != xs[j]
  }

  /** The predicate "differs from v", used to delete every copy of `v`. */
  function NotEq<T(==)>(v: T): T -> bool {
    x => x != v
  }

  /** Number of elements satisfying `p`. */
  function Count<T(==,!new)>(xs: seq<T>, p: T -> bool): nat {
    |Filter(xs, p)|
  }

  lemma {:induction false} FilterKeepsAll<T(!new)>(xs: seq<T>, p: T -> bool)
    requires forall x :: x in xs ==> p(x)
    ensures Filter(xs, p) == xs
  {
    if xs != [] {
      FilterKeepsAll(xs[1..], p);
    }
  }

  /** The filter keeps the whole list exactly when every element passes. */
  lemma {:induction false} FilterKeepsAllIff<T(!new)>(xs: seq<T>, p: T -> bool)
    ensures |Filter(xs, p)| == |xs| <==> forall x :: x in xs ==> p(x)
  {
    if xs != [] {
      FilterKeepsAllIff(xs[1..], p);
      assert forall x :: x in xs <==> x == xs[0] || x in xs[1..];
    }
  }

  /** Nothing passes when the filter is empty. */
  lemma FilterEmpty<T(!new)>(xs: seq<T>, p: T -> bool)
    requires Filter(xs, p) == []
    ensures forall k :: 0 <= k < |xs| ==> !p(xs[k])
  {
    forall k | 0 <= k < |xs| ensures !p(xs[k]) {
      assert xs[k] in xs;
    }
  }

  lemma {:induction false} FilterConcat<T(!new)>(xs: seq<T>, ys: seq<T>, p: T -> bool)
    ensures Filter(xs + ys, p) == Filter(xs, p) + Filter(ys, p)
  {
    if xs == [] {
      assert xs + ys == ys;
    } else {
      assert (xs + ys)[1..] == xs[1..] + ys;
      FilterConcat(xs[1..], ys, p);
    }
  }

  /** Filtering twice with the same predicate changes nothing the second time. */
  /** Predicates that agree on every element of `xs` filter it alike. */
  lemma {:induction false} FilterSame<T(!new)>(xs: seq<T>, p: T -> bool, q: T -> bool)
    requires forall x :: x in xs ==> p(x) == q(x)
    ensures Filter(xs, p) == Filter(xs, q)
  {
    if xs != [] {
      FilterSame(xs[1..], p, q);
    }
  }

  lemma FilterIdempotent<T(!new)>(xs: seq<T>, p: T -> bool)
    ensures Filter(Filter(xs, p), p) == Filter(xs, p)
  {
    FilterKeepsAll(Filter(xs, p), p);
  }

  /** Filtering a list without repeats gives a list without repeats. */
  lemma {:induction false} FilterNoDup<T(!new)>(xs: seq<T>, p: T -> bool)
    requires NoDup(xs)
    ensures NoDup(Filter(xs, p))
  {
    if xs != [] {
      TailNoDup(xs);
      FilterNoDup(xs[1..], p);
      if p(xs[0]) {
        var r := Filter(xs, p);
        assert xs[0] !in xs[1..] by {
          forall k | 0 <= k < |xs[1..]| ensures xs[1..][k] != xs[0] {
            assert xs[1..][k] == xs[k + 1];
          }
        }
        forall i, j | 0 <= i < j < |r| ensures r[i] != r[j] {
          if i == 0 {
            assert r[j] in Filter(xs[1..], p);
          } else {
            assert r[i] == Filter(xs[1..], p)[i - 1] && r[j] == Filter(xs[1..], p)[j - 1];
          }
        }
      }
    }
  }

  lemma TailNoDup<T>(xs: seq<T>)
    requires xs != [] && NoDup(xs)
    ensures NoDup(xs[1..])
  {
    forall i, j | 0 <= i < j < |xs[1..]| ensures xs[1..][i] != xs[1..][j] {
      assert xs[1..][i] == xs[i + 1] && xs[1..][j] == xs[j + 1];
    }
  }

  /** In a list without repeats every value occurs at most once. */
  lemma {:induction false} NoDupCountsOne<T>(xs: seq<T>, v: T)
    requires NoDup(xs)
    ensures multiset(xs)[v] <= 1
  {
    if xs != [] {
      TailNoDup(xs);
      NoDupCountsOne(xs[1..], v);
      assert xs == [xs[0]] + xs[1..];
      if xs[0] == v {
        assert v !in xs[1..] by {
          forall k | 0 <= k < |xs[1..]| ensures xs[1..][k] != v {
            assert xs[1..][k] == xs[k + 1];
          }
        }
      }
    }
  }

  /** A rearrangement of a list without repeats has no repeats. */
  lemma PermutationNoDup<T>(xs: seq<T>, r: seq<T>)
    requires NoDup(xs) && multiset(r) == multiset(xs)
    ensures NoDup(r)
  {
    forall i, j | 0 <= i < j < |r| ensures r[i] != r[j] {
      if r[i] == r[j] {
        var v := r[i];
        assert r == r[..i] + [v] + r[i + 1..j] + [v] + r[j + 1..];
        assert multiset(r)[v] >= 2 by {
          assert multiset(r) == multiset(r[..i]) + multiset{v} + multiset(r[i + 1..j]) + multiset{v} + multiset(r[j + 1..]);
        }
        NoDupCountsOne(xs, v);
      }
    }
  }

  /**
    `xs.find(x => key(x) === k)`: the first element whose key is `k`, if any.
   */
  function Find<T>(xs: seq<T>, key: T -> int, k: int): (r: Option<T>)
    ensures r.Some? <==> exists i :: 0 <= i < |xs| && key(xs[i]) == k
    ensures r.Some? ==>
      exists i :: 0 <= i < |xs| && xs[i] == r.value && key(xs[i]) == k && forall j :: 0 <= j < i ==> key(xs[j]) != k
  {
    if xs == [] then None
    else if key(xs[0]) == k then Some(xs[0])
    else
      var r := Find(xs[1..], key, k);
      assert forall i :: 1 <= i < |xs| ==> xs[i] == xs[1..][i - 1];
      r
  }

  /** When exactly one element has key `k`, `find` returns that element. */
  lemma FindUnique<T>(xs: seq<T>, key: T -> int, k: int, i: nat)
    requires i < |xs| && key(xs[i]) == k
    requires forall j :: 0 <= j < |xs| && j != i ==> key(xs[j]) != k
    ensures Find(xs, key, k) == Some(xs[i])
  {
  }

  function Min(a: int, b: int): int {
    if a <= b then a else b
  }

  /** `xs.slice(0, n)`: the first `n` elements, or all of them when fewer. */
  function Take<T>(xs: seq<T>, n: nat): (r: seq<T>)
    ensures |r| == Min(n, |xs|)
    ensures r <= xs
  {
    if n <= |xs| then xs[..n] else xs
  }

  /** The "+k" badge shown after the first `limit` items of a list of length `n`. */
  function OverflowBadge(n: nat, limit: nat): (r: Option<nat>)
    ensures r.Some? <==> n > limit
    ensures r.Some? ==> r.value > 0
  {
    if n > limit then Some(n - limit) else None
  }

  /** The visible items plus the number on the badge account for every item exactly once. */
  lemma TakeAndBadgeCoverList<T>(xs: seq<T>, limit: nat)
    ensures |Take(xs, limit)| + (match OverflowBadge(|xs|, limit) case Some(k) => k case None => 0) == |xs|
    ensures OverflowBadge(|xs|, limit).None? <==> Take(xs, limit) == xs
  {
  }
}
