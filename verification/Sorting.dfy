/** Stable sorting, as the insertion form of a left-biased merge. */
module Sorting {
  // `Sort(le, xs)` stands for every library sort the modelled code calls: those of Rust and of Python
  // are both stable.  The lemmas say what a stable sort does to a concatenation, to a truncation and
  // to a tie order.

  ghost predicate TotalPreorder<T(!new)>(le: (T, T) -> bool) {
    && (forall x, y :: le(x, y) || le(y, x))
    && (forall x, y, z :: le(x, y) && le(y, z) ==> le(x, z))
  }

  ghost predicate Sorted<T(!new)>(le: (T, T) -> bool, xs: seq<T>) {
    forall i, j :: 0 <= i < j < |xs| ==> le(xs[i], xs[j])
  }

  /** Every earlier element stands in `r` to every later one. */
  ghost predicate Pairwise<T(!new)>(r: (T, T) -> bool, xs: seq<T>) {
    forall i, j :: 0 <= i < j < |xs| ==> r(xs[i], xs[j])
  }

  function Take<T>(k: nat, xs: seq<T>): (r: seq<T>)
    ensures r <= xs
    ensures |r| == if k < |xs| then k else |xs|
  {
    if k < |xs| then xs[..k] else xs
  }

  function Merge<T>(le: (T, T) -> bool, a: seq<T>, b: seq<T>): (r: seq<T>)
    ensures |r| == |a| + |b|
    decreases |a| + |b|
  {
    if a == [] then b
    else if b == [] then a
    else if le(a[0], b[0]) then [a[0]] + Merge(le, a[1..], b)
    else [b[0]] + Merge(le, a, b[1..])
  }

  function Sort<T>(le: (T, T) -> bool, xs: seq<T>): (r: seq<T>)
    ensures |r| == |xs|
  {
    if xs == [] then [] else Merge(le, [xs[0]], Sort(le, xs[1..]))
  }

  function Map<S, T>(f: S -> T, xs: seq<S>): (r: seq<T>)
    ensures |r| == |xs|
    ensures forall i :: 0 <= i < |xs| ==> r[i] == f(xs[i])
  {
    if xs == [] then [] else [f(xs[0])] + Map(f, xs[1..])
  }

  lemma MapAppend<S, T>(f: S -> T, a: seq<S>, b: seq<S>)
    ensures Map(f, a + b) == Map(f, a) + Map(f, b)
  {
  }

  // ---- contents ----

  lemma {:induction false} MergeKeepsElements<T>(le: (T, T) -> bool, a: seq<T>, b: seq<T>)
    ensures multiset(Merge(le, a, b)) == multiset(a) + multiset(b)
    decreases |a| + |b|
  {
    if a != [] && b != [] {
      if le(a[0], b[0]) {
        assert a == [a[0]] + a[1..];
        MergeKeepsElements(le, a[1..], b);
      } else {
        assert b == [b[0]] + b[1..];
        MergeKeepsElements(le, a, b[1..]);
      }
    }
  }

  lemma {:induction false} SortKeepsElements<T>(le: (T, T) -> bool, xs: seq<T>)
    ensures multiset(Sort(le, xs)) == multiset(xs)
  {
    if xs != [] {
      assert xs == [xs[0]] + xs[1..];
      SortKeepsElements(le, xs[1..]);
      MergeKeepsElements(le, [xs[0]], Sort(le, xs[1..]));
    }
  }

  lemma MultisetMembers<T>(a: seq<T>, b: seq<T>)
    requires multiset(a) == multiset(b)
    ensures forall x :: x in a <==> x in b
  {
    forall x
      ensures x in a <==> x in b
    {
      assert x in a <==> x in multiset(a);
      assert x in b <==> x in multiset(b);
    }
  }

  lemma MergeMembers<T>(le: (T, T) -> bool, a: seq<T>, b: seq<T>)
    ensures forall x :: x in Merge(le, a, b) <==> x in a || x in b
  {
    MergeKeepsElements(le, a, b);
    assert multiset(a + b) == multiset(a) + multiset(b);
    MultisetMembers(Merge(le, a, b), a + b);
  }

  lemma SortMembers<T>(le: (T, T) -> bool, xs: seq<T>)
    ensures forall x :: x in Sort(le, xs) <==> x in xs
  {
    SortKeepsElements(le, xs);
    MultisetMembers(Sort(le, xs), xs);
  }

  // ---- order ----

  lemma PairwiseCons<T(!new)>(r: (T, T) -> bool, x: T, xs: seq<T>)
    requires Pairwise(r, xs)
    requires forall y :: y in xs ==> r(x, y)
    ensures Pairwise(r, [x] + xs)
  {
  }

  /** The tie law of a stable merge: where the inputs are in order by key and ties are
      broken by `tie`, and every element of `a` precedes every element of `b` in `tie`, the merge is
      in order by key with ties broken by `tie`. */
  lemma {:induction false} MergeBreaksTies<T(!new)>(le: (T, T) -> bool, tie: (T, T) -> bool, a: seq<T>, b: seq<T>)
    requires TotalPreorder(le)
    requires Pairwise(ByKeyThen(le, tie), a) && Pairwise(ByKeyThen(le, tie), b)
    requires forall x, y :: x in a && y in b ==> tie(x, y)
    ensures Pairwise(ByKeyThen(le, tie), Merge(le, a, b))
    decreases |a| + |b|
  {
    var r := ByKeyThen(le, tie);
    if a != [] && b != [] {
      if le(a[0], b[0]) {
        MergeBreaksTies(le, tie, a[1..], b);
        MergeMembers(le, a[1..], b);
        forall y | y in Merge(le, a[1..], b)
          ensures r(a[0], y)
        {
          if y in b {
            var j :| 0 <= j < |b| && b[j] == y;
            assert j == 0 || r(b[0], b[j]);
          }
        }
        PairwiseCons(r, a[0], Merge(le, a[1..], b));
      } else {
        MergeBreaksTies(le, tie, a, b[1..]);
        MergeMembers(le, a, b[1..]);
        forall y | y in Merge(le, a, b[1..])
          ensures r(b[0], y)
        {
          if y in a {
            var j :| 0 <= j < |a| && a[j] == y;
            assert j == 0 || r(a[0], a[j]);
          }
        }
        PairwiseCons(r, b[0], Merge(le, a, b[1..]));
      }
    }
  }

  /** Strictly smaller key, or equal key and `tie`. */
  ghost function ByKeyThen<T(!new)>(le: (T, T) -> bool, tie: (T, T) -> bool): (T, T) -> bool {
    (x, y) => le(x, y) && (le(y, x) ==> tie(x, y))
  }

  lemma ByKeyThenIs<T(!new)>(le: (T, T) -> bool, tie: (T, T) -> bool, x: T, y: T)
    ensures ByKeyThen(le, tie)(x, y) <==> le(x, y) && (le(y, x) ==> tie(x, y))
  {
  }

  /** Sorting orders by key and keeps the input's own order on ties. */
  lemma {:induction false} SortBreaksTies<T(!new)>(le: (T, T) -> bool, tie: (T, T) -> bool, xs: seq<T>)
    requires TotalPreorder(le)
    requires Pairwise(tie, xs)
    ensures Pairwise(ByKeyThen(le, tie), Sort(le, xs))
  {
    if xs != [] {
      SortBreaksTies(le, tie, xs[1..]);
      SortMembers(le, xs[1..]);
      MergeBreaksTies(le, tie, [xs[0]], Sort(le, xs[1..]));
    }
  }

  lemma SortSorts<T(!new)>(le: (T, T) -> bool, xs: seq<T>)
    requires TotalPreorder(le)
    ensures Sorted(le, Sort(le, xs))
  {
    var any := (x: T, y: T) => true;
    SortBreaksTies(le, any, xs);
  }

  lemma SameHead<T(!new)>(le: (T, T) -> bool, a: seq<T>, b: seq<T>)
    requires Sorted(le, a) && Sorted(le, b) && a != [] && b != []
    requires a[0] in b && b[0] in a
    requires le(a[0], b[0]) && le(b[0], a[0]) ==> a[0] == b[0]
    ensures a[0] == b[0]
  {
  }

  lemma SameTails<T>(a: seq<T>, b: seq<T>)
    requires multiset(a) == multiset(b) && a != [] && b != [] && a[0] == b[0]
    ensures multiset(a[1..]) == multiset(b[1..])
  {
    assert a == [a[0]] + a[1..] && b == [b[0]] + b[1..];
    assert multiset(a) == multiset{a[0]} + multiset(a[1..]);
    assert multiset(b) == multiset{b[0]} + multiset(b[1..]);
    assert multiset(a[1..]) == multiset(a) - multiset{a[0]};
  }

  /** A sorted sequence is determined by its elements when no two of them tie. */
  lemma {:induction false} SortedIsCanonical<T(!new)>(le: (T, T) -> bool, a: seq<T>, b: seq<T>)
    requires Sorted(le, a) && Sorted(le, b)
    requires forall x, y :: x in a && y in a && le(x, y) && le(y, x) ==> x == y
    requires multiset(a) == multiset(b)
    ensures a == b
  {
    assert |a| == |multiset(a)| == |multiset(b)| == |b|;
    if a != [] {
      assert a[0] in b && b[0] in a by { MultisetMembers(a, b); }
      SameHead(le, a, b);
      SameTails(a, b);
      SortedIsCanonical(le, a[1..], b[1..]);
    }
  }

  // ---- concatenation and truncation ----

  lemma SortedTail<T(!new)>(le: (T, T) -> bool, xs: seq<T>)
    requires Sorted(le, xs) && xs != []
    ensures Sorted(le, xs[1..])
    ensures forall y :: y in xs[1..] ==> le(xs[0], y)
  {
  }

  lemma {:induction false} MergeAssociates<T(!new)>(le: (T, T) -> bool, a: seq<T>, b: seq<T>, c: seq<T>)
    requires TotalPreorder(le)
    requires Sorted(le, a) && Sorted(le, b) && Sorted(le, c)
    ensures Merge(le, Merge(le, a, b), c) == Merge(le, a, Merge(le, b, c))
    decreases |a| + |b| + |c|
  {
    if a == [] || b == [] || c == [] {
    } else {
      SortedTail(le, a);
      SortedTail(le, b);
      SortedTail(le, c);
      var ab, bc := Merge(le, a, b), Merge(le, b, c);
      if le(a[0], b[0]) && le(a[0], c[0]) {
        MergeAssociates(le, a[1..], b, c);
        assert ab[1..] == Merge(le, a[1..], b);
      } else if !le(a[0], b[0]) && le(b[0], c[0]) {
        MergeAssociates(le, a, b[1..], c);
        assert ab[1..] == Merge(le, a, b[1..]);
        assert bc[1..] == Merge(le, b[1..], c);
      } else {
        MergeAssociates(le, a, b, c[1..]);
        assert bc[1..] == Merge(le, b, c[1..]);
      }
    }
  }

  lemma {:induction false} SortOfAppend<T(!new)>(le: (T, T) -> bool, a: seq<T>, b: seq<T>)
    requires TotalPreorder(le)
    ensures Sort(le, a + b) == Merge(le, Sort(le, a), Sort(le, b))
  {
    if a == [] {
      assert a + b == b;
    } else {
      assert (a + b)[1..] == a[1..] + b;
      SortOfAppend(le, a[1..], b);
      SortSorts(le, a[1..]);
      SortSorts(le, b);
      MergeAssociates(le, [a[0]], Sort(le, a[1..]), Sort(le, b));
    }
  }

  lemma {:induction false} SortOfSorted<T(!new)>(le: (T, T) -> bool, xs: seq<T>)
    requires Sorted(le, xs)
    ensures Sort(le, xs) == xs
  {
    if xs != [] {
      SortedTail(le, xs);
      SortOfSorted(le, xs[1..]);
      var head := [xs[0]];
      assert head[1..] == [];
      assert |xs| > 1 ==> le(head[0], xs[1..][0]);
      assert Merge(le, head[1..], xs[1..]) == xs[1..];
      assert Merge(le, head, xs[1..]) == head + xs[1..];
      assert xs == head + xs[1..];
    }
  }

  lemma MergeUnfolds<T>(le: (T, T) -> bool, a: seq<T>, b: seq<T>)
    ensures Merge(le, a, b) ==
      if a == [] then b
      else if b == [] then a
      else if le(a[0], b[0]) then [a[0]] + Merge(le, a[1..], b)
      else [b[0]] + Merge(le, a, b[1..])
  {
  }

  /** The first `k` of a merge come from the first `k` of each side. */
  lemma {:induction false} TakeOfMerge<T>(le: (T, T) -> bool, k: nat, a: seq<T>, b: seq<T>)
    ensures Take(k, Merge(le, a, b)) == Take(k, Merge(le, Take(k, a), Take(k, b)))
    decreases |a| + |b|
  {
    hide *;
    var a', b' := Take(k, a), Take(k, b);
    MergeUnfolds(le, a, b);
    MergeUnfolds(le, a', b');
    TakeAgain(k, a);
    TakeAgain(k, b);
    if k == 0 {
    } else if a == [] || b == [] {
    } else if le(a[0], b[0]) {
      TakeOfMerge(le, k - 1, a[1..], b);
      TakeOfMerge(le, k - 1, a'[1..], b');
      TakeTake(k, a, b);
      TakeStep(k, a[0], Merge(le, a[1..], b), Merge(le, a'[1..], b'));
    } else {
      TakeOfMerge(le, k - 1, a, b[1..]);
      TakeOfMerge(le, k - 1, a', b'[1..]);
      TakeTake(k, b, a);
      TakeStep(k, b[0], Merge(le, a, b[1..]), Merge(le, a', b'[1..]));
    }
  }

  lemma TakeStep<T>(k: nat, x: T, xs: seq<T>, ys: seq<T>)
    requires k > 0 && Take(k - 1, xs) == Take(k - 1, ys)
    ensures Take(k, [x] + xs) == Take(k, [x] + ys)
  {
    hide *;
    TakeCons(k, x, xs);
    TakeCons(k, x, ys);
  }

  lemma TakeAgain<T>(k: nat, a: seq<T>)
    ensures Take(k, Take(k, a)) == Take(k, a)
    ensures a == [] ==> Take(k, a) == []
    ensures k == 0 ==> Take(k, a) == []
    ensures k > 0 && a != [] ==> Take(k, a) != [] && Take(k, a)[0] == a[0]
  {
  }

  lemma TakeTake<T>(k: nat, a: seq<T>, b: seq<T>)
    requires k > 0 && a != []
    ensures Take(k - 1, Take(k, a)[1..]) == Take(k - 1, a[1..])
    ensures Take(k - 1, Take(k, b)) == Take(k - 1, b)
  {
  }

  lemma TakeCons<T>(k: nat, x: T, xs: seq<T>)
    requires k > 0
    ensures Take(k, [x] + xs) == [x] + Take(k - 1, xs)
  {
  }

  /** Truncating one sorted block of the input to `k` does not change the first `k` of the
      sorted whole: the reason a beam of width `k` per state is exact. */
  lemma TruncationIsExact<T(!new)>(le: (T, T) -> bool, k: nat, a: seq<T>, a': seq<T>, b: seq<T>)
    requires TotalPreorder(le) && Sorted(le, b)
    requires Take(k, Sort(le, a)) == Take(k, Sort(le, a'))
    ensures Take(k, Sort(le, a + b)) == Take(k, Sort(le, a' + Take(k, b)))
  {
    SortOfAppend(le, a, b);
    SortOfAppend(le, a', Take(k, b));
    SortOfSorted(le, b);
    SortOfSorted(le, Take(k, b));
    TakeOfMerge(le, k, Sort(le, a), b);
    TakeOfMerge(le, k, Sort(le, a'), Take(k, b));
    assert Take(k, Take(k, b)) == Take(k, b);
  }

  // ---- sorting indices by what they point at ----

  lemma {:induction false} MergeOfMap<S(!new),
                                        T>(f: S -> T, le: (T, T) -> bool, on: (S, S) -> bool, a: seq<S>, b: seq<S>)
    requires forall x, y :: on(x, y) == le(f(x), f(y))
    ensures Map(f, Merge(on, a, b)) == Merge(le, Map(f, a), Map(f, b))
    decreases |a| + |b|
  {
    if a != [] && b != [] {
      assert Map(f, a)[1..] == Map(f, a[1..]) && Map(f, b)[1..] == Map(f, b[1..]);
      if on(a[0], b[0]) {
        MergeOfMap(f, le, on, a[1..], b);
        MapAppend(f, [a[0]], Merge(on, a[1..], b));
      } else {
        MergeOfMap(f, le, on, a, b[1..]);
        MapAppend(f, [b[0]], Merge(on, a, b[1..]));
      }
    }
  }

  lemma {:induction false} SortOfMap<S(!new), T>(f: S -> T, le: (T, T) -> bool, on: (S, S) -> bool, xs: seq<S>)
    requires forall x, y :: on(x, y) == le(f(x), f(y))
    ensures Map(f, Sort(on, xs)) == Sort(le, Map(f, xs))
  {
    if xs != [] {
      SortOfMap(f, le, on, xs[1..]);
      MergeOfMap(f, le, on, [xs[0]], Sort(on, xs[1..]));
      assert Map(f, xs)[1..] == Map(f, xs[1..]);
      assert Map(f, [xs[0]]) == [Map(f, xs)[0]];
    }
  }
}
