/** Reversal, as the loops that build a result back to front need it. */
module Sequences {

  function Reversed<T>(xs: seq<T>): (r: seq<T>)
    ensures |r| == |xs|
    ensures forall i :: 0 <= i < |xs| ==> r[i] == xs[|xs| - 1 - i]
  {
    if xs == [] then [] else Reversed(xs[1..]) + [xs[0]]
  }

  lemma ReversedSnoc<T>(xs: seq<T>, x: T)
    ensures Reversed(xs + [x]) == [x] + Reversed(xs)
  {
    hide Reversed;
    assert forall i :: 0 <= i < |xs| ==> Reversed(xs)[i] == Reversed(xs + [x])[i + 1];
  }
}
