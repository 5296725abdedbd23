/** Lexicographic order on sequences, as the modelled code compares byte strings and texts. */
module Lexicographic {

  /** `a` is not after `b`, comparing elements by `rank`. */
  predicate AtMost<T>(rank: T -> int, a: seq<T>, b: seq<T>) {
    if a == [] then true
    else if b == [] then false
    else rank(a[0]) < rank(b[0]) || (rank(a[0]) == rank(b[0]) && AtMost(rank, a[1..], b[1..]))
  }

  ghost predicate Injective<T(!new)>(rank: T -> int) {
    forall x, y :: rank(x) == rank(y) ==> x == y
  }

  lemma {:induction false} Total<T>(rank: T -> int, a: seq<T>, b: seq<T>)
    ensures AtMost(rank, a, b) || AtMost(rank, b, a)
  {
    if a != [] && b != [] { Total(rank, a[1..], b[1..]); }
  }

  lemma {:induction false} Transitive<T>(rank: T -> int, a: seq<T>, b: seq<T>, c: seq<T>)
    requires AtMost(rank, a, b) && AtMost(rank, b, c)
    ensures AtMost(rank, a, c)
  {
    if a != [] && b != [] && c != [] && rank(a[0]) == rank(b[0]) == rank(c[0]) {
      Transitive(rank, a[1..], b[1..], c[1..]);
    }
  }

  lemma {:induction false} Antisymmetric<T(!new)>(rank: T -> int, a: seq<T>, b: seq<T>)
    requires Injective(rank) && AtMost(rank, a, b) && AtMost(rank, b, a)
    ensures a == b
  {
    if a != [] && b != [] {
      Antisymmetric(rank, a[1..], b[1..]);
      assert a == [a[0]] + a[1..] && b == [b[0]] + b[1..];
    }
  }

  lemma {:induction false} Reflexive<T>(rank: T -> int, a: seq<T>)
    ensures AtMost(rank, a, a)
  {
    if a != [] { Reflexive(rank, a[1..]); }
  }

  /** A common prefix does not matter. */
  lemma {:induction false} CommonPrefix<T>(rank: T -> int, p: seq<T>, a: seq<T>, b: seq<T>)
    ensures AtMost(rank, p + a, p + b) <==> AtMost(rank, a, b)
  {
    if p == [] {
      assert p + a == a && p + b == b;
    } else {
      assert (p + a)[1..] == p[1..] + a && (p + b)[1..] == p[1..] + b;
      CommonPrefix(rank, p[1..], a, b);
    }
  }

  /** The first difference decides, whatever follows it. */
  lemma FirstDifference<T>(rank: T -> int, p: seq<T>, x: T, y: T, a: seq<T>, b: seq<T>)
    requires rank(x) != rank(y)
    ensures AtMost(rank, p + [x] + a, p + [y] + b) <==> rank(x) < rank(y)
  {
    assert p + [x] + a == p + ([x] + a) && p + [y] + b == p + ([y] + b);
    CommonPrefix(rank, p, [x] + a, [y] + b);
  }

  /** `a` and `b` agree up to `n`, where `a` ends or has the smaller element. */
  ghost predicate Parts<T>(rank: T -> int, a: seq<T>, b: seq<T>, n: nat) {
    n <= |a| && n < |b| && a[..n] == b[..n] && (n < |a| ==> rank(a[n]) < rank(b[n]))
  }

  /** The order is decided where the sequences part. */
  lemma {:induction false} AtMostIsParting<T(!new)>(rank: T -> int, a: seq<T>, b: seq<T>)
    requires Injective(rank)
    ensures AtMost(rank, a, b) <==> a == b || exists n: nat :: Parts(rank, a, b, n)
    decreases |a|
  {
    if a == [] {
      assert b != [] ==> Parts(rank, a, b, 0);
    } else if b != [] && a[0] == b[0] {
      AtMostIsParting(rank, a[1..], b[1..]);
      assert a == [a[0]] + a[1..] && b == [b[0]] + b[1..];
      if n: nat :| Parts(rank, a[1..], b[1..], n) {
        assert a[..n + 1] == [a[0]] + a[1..][..n] && b[..n + 1] == [b[0]] + b[1..][..n];
        assert Parts(rank, a, b, n + 1);
      }
      if n: nat :| Parts(rank, a, b, n) {
        assert n > 0 && a[1..][..n - 1] == a[..n][1..] && b[1..][..n - 1] == b[..n][1..];
        assert Parts(rank, a[1..], b[1..], n - 1);
      }
    } else if b != [] {
      if rank(a[0]) < rank(b[0]) { assert Parts(rank, a, b, 0); }
      if n: nat :| Parts(rank, a, b, n) {
        HeadsAgree(a, b, n);
      }
    }
  }

  lemma HeadsAgree<T>(a: seq<T>, b: seq<T>, n: nat)
    requires n <= |a| && n <= |b| && a[..n] == b[..n]
    ensures n > 0 ==> a[0] == b[0]
  {
    if n > 0 { assert a[..n][0] == b[..n][0]; }
  }

  // ---- texts, by code point ----

  /** Text `a` comes strictly before text `b`: it is a proper beginning of it, or has the smaller character where they
      first differ. */
  ghost predicate TextLess(a: string, b: string) {
    exists n: nat :: n <= |a| && n < |b| && a[..n] == b[..n] && (n < |a| ==> a[n] < b[n])
  }

  lemma TextAtMostMeans(a: string, b: string)
    ensures TextAtMost(a, b) <==> a == b || TextLess(a, b)
  {
    CodeIsInjective();
    AtMostIsParting(Code, a, b);
    if n: nat :| Parts(Code, a, b, n) { assert a[..n] == b[..n]; }
    if n: nat :| n <= |a| && n < |b| && a[..n] == b[..n] && (n < |a| ==> a[n] < b[n]) {
      assert Parts(Code, a, b, n);
    }
  }

  function Code(c: char): (n: int) { c as int }

  predicate TextAtMost(a: string, b: string) { AtMost(Code, a, b) }

  lemma CodeIsInjective()
    ensures Injective(Code)
  {
  }

  lemma {:induction false} LeastExists(texts: set<string>)
    requires texts != {}
    ensures exists t :: t in texts && forall u :: u in texts ==> TextAtMost(t, u)
    decreases |texts|
  {
    var x :| x in texts;
    Reflexive(Code, x);
    if texts == {x} {
    } else {
      LeastExists(texts - {x});
      var t :| t in texts - {x} && forall u :: u in texts - {x} ==> TextAtMost(t, u);
      Total(Code, t, x);
      if TextAtMost(t, x) {
        assert forall u :: u in texts ==> TextAtMost(t, u);
      } else {
        forall u | u in texts
          ensures TextAtMost(x, u)
        {
          if u != x {
            assert u in texts - {x} && TextAtMost(t, u) && TextAtMost(x, t);
            Transitive(Code, x, t, u);
          }
        }
      }
    }
  }

  /** The first of the sorted texts. */
  ghost function First(texts: set<string>): (t: string)
    ensures texts != {} ==> t in texts && forall u :: u in texts ==> TextAtMost(t, u)
  {
    if texts == {} then ""
    else
      LeastExists(texts);
      var t :| t in texts && forall u :: u in texts ==> TextAtMost(t, u);
      t
  }

  lemma TextOrder(a: string, b: string, c: string)
    ensures TextAtMost(a, b) || TextAtMost(b, a)
    ensures TextAtMost(a, b) && TextAtMost(b, c) ==> TextAtMost(a, c)
    ensures TextAtMost(a, b) && TextAtMost(b, a) ==> a == b
  {
    Total(Code, a, b);
    if TextAtMost(a, b) && TextAtMost(b, c) { Transitive(Code, a, b, c); }
    CodeIsInjective();
    if TextAtMost(a, b) && TextAtMost(b, a) { Antisymmetric(Code, a, b); }
  }
}
