/**
  `Array.prototype.sort` with a comparator. Section 23.1.3.30 of ECMA-262
  requires the sort to be stable and to order by the sign of the comparator's
  result. When the comparator is a consistent comparison on the elements,
  exactly one arrangement meets both demands, and the stable insertion sort
  below computes it: the result is a permutation of the input, ordered by the
  comparator, and elements the comparator ties keep their input order.
 */
module StableSort {
  import opened Common

  /** `a` may be placed before `b`: the comparator is not positive. */
  predicate InOrder<T>(cmp: (T, T) -> int, a: T, b: T) {
    cmp(a, b) <= 0
  }

  predicate Sorted<T>(cmp: (T, T) -> int, r: seq<T>) {
    forall i :: 0 <= i < |r| - 1 ==> InOrder(cmp, r[i], r[i + 1])
  }

  /** Any two elements of `u` are ordered one way or the other. */
  predicate TotalOn<T(!new)>(cmp: (T, T) -> int, u: set<T>) {
    forall a, b :: a in u && b in u ==> InOrder(cmp, a, b) || InOrder(cmp, b, a)
  }

  predicate TransitiveOn<T(!new)>(cmp: (T, T) -> int, u: set<T>) {
    forall a, b, c :: a in u && b in u && c in u && InOrder(cmp, a, b) && InOrder(cmp, b, c) ==>
      InOrder(cmp, a, c)
  }

  /** Two elements of `u` tied with a third are tied with each other. */
  predicate TiesAgreeOn<T(!new)>(cmp: (T, T) -> int, u: set<T>) {
    forall a, b, c :: a in u && b in u && c in u && cmp(a, c) == 0 && cmp(b, c) == 0 ==> cmp(a, b) == 0
  }

  /** The comparator behaves as a comparison on the elements of `u`. */
  predicate ConsistentOn<T(!new)>(cmp: (T, T) -> int, u: set<T>) {
    TotalOn(cmp, u) && TransitiveOn(cmp, u) && TiesAgreeOn(cmp, u)
  }

  predicate Within<T>(xs: seq<T>, u: set<T>) {
    forall m :: m in xs ==> m in u
  }

  /** The elements of a list, as a set. */
  function Members<T>(xs: seq<T>): (u: set<T>)
    ensures Within(xs, u)
  {
    set m | m in xs
  }

  /** `x` placed into `s` before the first element it may precede. */
  function Insert<T>(cmp: (T, T) -> int, x: T, s: seq<T>): (r: seq<T>)
    ensures |r| == |s| + 1
    ensures r[0] == x || (s != [] && r[0] == s[0])
    ensures multiset(r) == multiset{x} + multiset(s)
  {
    if s == [] then [x]
    else if InOrder(cmp, x, s[0]) then [x] + s
    else
      assert s == [s[0]] + s[1..];
      [s[0]] + Insert(cmp, x, s[1..])
  }

  /** The stable sort of `xs` by `cmp`. */
  function Sort<T>(cmp: (T, T) -> int, xs: seq<T>): (r: seq<T>)
    ensures |r| == |xs|
    ensures multiset(r) == multiset(xs)
  {
    if xs == [] then []
    else
      assert xs == [xs[0]] + xs[1..];
      Insert(cmp, xs[0], Sort(cmp, xs[1..]))
  }

  lemma TailWithin<T>(xs: seq<T>, u: set<T>)
    requires xs != [] && Within(xs, u)
    ensures xs[0] in u && Within(xs[1..], u)
  {
    assert xs[0] in xs;
    forall m | m in xs[1..] ensures m in u {
      assert m in xs;
    }
  }

  lemma SortWithin<T>(xs: seq<T>, u: set<T>, cmp: (T, T) -> int)
    requires Within(xs, u)
    ensures Within(Sort(cmp, xs), u)
  {
    var r := Sort(cmp, xs);
    forall m | m in r ensures m in u {
      assert m in multiset(r);
      assert m in multiset(xs);
    }
  }

  lemma {:induction false} InsertSorted<T(!new)>(cmp: (T, T) -> int, x: T, s: seq<T>, u: set<T>)
    requires TotalOn(cmp, u) && x in u && Within(s, u)
    requires Sorted(cmp, s)
    ensures Sorted(cmp, Insert(cmp, x, s))
  {
    if s != [] && !InOrder(cmp, x, s[0]) {
      TailWithin(s, u);
      assert InOrder(cmp, s[0], x);
      var t := s[1..];
      assert Sorted(cmp, t) by {
        forall i | 0 <= i < |t| - 1 ensures InOrder(cmp, t[i], t[i + 1]) {
          assert t[i] == s[i + 1] && t[i + 1] == s[i + 2];
        }
      }
      InsertSorted(cmp, x, t, u);
      var r := Insert(cmp, x, t);
      assert InOrder(cmp, s[0], r[0]) by {
        if r[0] != x {
          assert r[0] == s[1];
        }
      }
      var whole := [s[0]] + r;
      assert whole == Insert(cmp, x, s);
      forall i | 0 <= i < |whole| - 1 ensures InOrder(cmp, whole[i], whole[i + 1]) {
        if i > 0 {
          assert whole[i] == r[i - 1] && whole[i + 1] == r[i];
        }
      }
    }
  }

  /** The result is ordered by the comparator whenever any two inputs are comparable. */
  lemma {:induction false} SortSorted<T(!new)>(cmp: (T, T) -> int, xs: seq<T>, u: set<T>)
    requires TotalOn(cmp, u) && Within(xs, u)
    ensures Sorted(cmp, Sort(cmp, xs))
  {
    if xs != [] {
      TailWithin(xs, u);
      SortSorted(cmp, xs[1..], u);
      SortWithin(xs[1..], u, cmp);
      InsertSorted(cmp, xs[0], Sort(cmp, xs[1..]), u);
    }
  }

  /** The elements tied with `p` under `cmp`. */
  function TiedWith<T>(cmp: (T, T) -> int, p: T): T -> bool {
    (m: T) => cmp(m, p) == 0
  }

  lemma {:induction false} InsertKeepsTies<T(!new)>(cmp: (T, T) -> int, x: T, s: seq<T>, p: T, u: set<T>)
    requires TiesAgreeOn(cmp, u) && x in u && p in u && Within(s, u)
    ensures Filter(Insert(cmp, x, s), TiedWith(cmp, p)) == Filter([x], TiedWith(cmp, p)) + Filter(s, TiedWith(cmp, p))
  {
    var t := TiedWith(cmp, p);
    if s == [] {
    } else if InOrder(cmp, x, s[0]) {
      FilterConcat([x], s, t);
    } else {
      TailWithin(s, u);
      assert !(t(x) && t(s[0]));
      InsertKeepsTies(cmp, x, s[1..], p, u);
      FilterConcat([s[0]], Insert(cmp, x, s[1..]), t);
      FilterConcat([s[0]], s[1..], t);
      assert [s[0]] + s[1..] == s;
    }
  }

  /**
    Stability: the elements tied with `p` appear in the result in the order
    they had in the input.
   */
  lemma {:induction false} SortStable<T(!new)>(cmp: (T, T) -> int, xs: seq<T>, p: T, u: set<T>)
    requires TiesAgreeOn(cmp, u) && Within(xs, u) && p in u
    ensures Filter(Sort(cmp, xs), TiedWith(cmp, p)) == Filter(xs, TiedWith(cmp, p))
  {
    if xs != [] {
      TailWithin(xs, u);
      SortStable(cmp, xs[1..], p, u);
      SortWithin(xs[1..], u, cmp);
      InsertKeepsTies(cmp, xs[0], Sort(cmp, xs[1..]), p, u);
      FilterConcat([xs[0]], xs[1..], TiedWith(cmp, p));
      assert [xs[0]] + xs[1..] == xs;
    }
  }

  /** A comparator that ties every pair leaves the list exactly as it was. */
  lemma {:induction false} SortAllTied<T>(cmp: (T, T) -> int, xs: seq<T>)
    requires forall a, b :: cmp(a, b) == 0
    ensures Sort(cmp, xs) == xs
  {
    if xs != [] {
      SortAllTied(cmp, xs[1..]);
      assert [xs[0]] + xs[1..] == xs;
    }
  }

  /**
    On a list without repeats, a comparator that is total there and ties only
    equal elements sorts strictly upwards, and the result has no repeats.
   */
  lemma SortStrict<T(!new)>(cmp: (T, T) -> int, xs: seq<T>)
    requires TotalOn(cmp, Members(xs)) && NoDup(xs)
    requires forall a, b :: a in xs && b in xs && cmp(a, b) == 0 ==> a == b
    ensures var r := Sort(cmp, xs); NoDup(r) && forall i :: 0 <= i < |r| - 1 ==> cmp(r[i], r[i + 1]) < 0
  {
    var r := Sort(cmp, xs);
    SortSorted(cmp, xs, Members(xs));
    PermutationNoDup(xs, r);
    forall i | 0 <= i < |r| - 1 ensures cmp(r[i], r[i + 1]) < 0 {
      assert r[i] in multiset(xs) && r[i + 1] in multiset(xs);
      assert InOrder(cmp, r[i], r[i + 1]);
    }
  }
}
