/** The parser's path counts, and when they agree with the enumeration. */
module ParserCounts {
  import opened Outcomes
  import opened ParserPaths

  function Clamp(n: nat): (r: nat) {
    if n > OVER_LIMIT then OVER_LIMIT else n
  }

  function BoundedAdd(left: nat, right: nat): (r: nat) {
    Clamp(left + right)
  }

  lemma ClampAdds(a: nat, b: nat)
    ensures BoundedAdd(Clamp(a), Clamp(b)) == Clamp(a + b)
  {
  }

  // ---- complete paths: one backward pass ----

  lemma StartingCount(pb: Problem, cursor: nat, length: nat)
    requires pb.Valid() && 0 < length && cursor + length <= pb.target && !pb.partials
    ensures |pb.Paths(cursor, length)|
         == (if pb.Lookup(cursor, length).Some? then |pb.AllFrom(cursor + length)| else 0) +
             |pb.Paths(cursor, length - 1)|
  {
  }

  lemma CountEnds(pb: Problem, cursor: nat)
    requires pb.Valid() && cursor <= pb.target
    ensures cursor < pb.target ==>
      |pb.AllFrom(cursor)| == |pb.Paths(cursor, pb.Longest(cursor))| && |pb.Paths(cursor, 0)| == 0
    ensures cursor == pb.target ==> |pb.AllFrom(cursor)| == 1
    ensures Clamp(1) == 1 && Clamp(0) == 0
  {
  }

  /** Counts the complete paths, from the end of the group to its start. */
  method CountComplete(pb: Problem) returns (count: nat)
    requires pb.Valid() && !pb.partials
    ensures count == Clamp(|pb.AllFrom(0)|)
  {
    hide pb.Paths, pb.AllFrom, Clamp, BoundedAdd;
    var counts := new nat[pb.target + 1](_ => 0);
    counts[pb.target] := 1;
    CountEnds(pb, pb.target);
    for cursor := pb.target downto 0
      invariant forall c :: cursor <= c <= pb.target ==> counts[c] == Clamp(|pb.AllFrom(c)|)
      invariant forall c :: 0 <= c < cursor ==> counts[c] == 0
    {
      CountEnds(pb, cursor);
      var longest := pb.Longest(cursor);
      for length := longest downto 0
        invariant forall c :: cursor < c <= pb.target ==> counts[c] == Clamp(|pb.AllFrom(c)|)
        invariant forall c :: 0 <= c < cursor ==> counts[c] == 0
        invariant |pb.Paths(cursor, length)| <= |pb.AllFrom(cursor)|
        invariant counts[cursor] == Clamp(|pb.AllFrom(cursor)| - |pb.Paths(cursor, length)|)
      {
        StartingCount(pb, cursor, length + 1);
        if pb.Lookup(cursor, length + 1).Some? {
          ClampAdds(|pb.AllFrom(cursor)| - |pb.Paths(cursor, length + 1)|, |pb.AllFrom(cursor + length + 1)|);
          counts[cursor] := BoundedAdd(counts[cursor], counts[cursor + length + 1]);
        }
      }
    }
    count := counts[0];
  }

  // ---- fallback paths: one forward pass ----

  /** One complete syllable spans `from..end`. */
  predicate Step(pb: Problem, from: nat, end: nat)
    requires pb.Valid() && end <= pb.target
  {
    from < end <= from + MAX_SYLLABLE_LEN && pb.Lookup(from, end - from).Some?
  }

  /** The covers of `0..end` by complete syllables whose last syllable starts below `bound`. */
  ghost function Front(pb: Problem, end: nat, bound: nat): (n: nat)
    requires pb.Valid() && bound <= end <= pb.target
    decreases end, bound
  {
    if bound == 0 then if end == 0 then 1 else 0
    else Front(pb, end, bound - 1) + if Step(pb, bound - 1, end) then Front(pb, bound - 1, bound - 1) else 0
  }

  ghost function Ways(pb: Problem, end: nat): (n: nat)
    requires pb.Valid() && end <= pb.target
  {
    Front(pb, end, end)
  }

  predicate PartialTail(pb: Problem, cursor: nat)
    requires pb.Valid() && cursor <= pb.target
  {
    pb.tables.partial(pb.group[cursor..pb.target])
  }

  /** Covers below `bound` that a partial tail would finish. */
  ghost function Tails(pb: Problem, bound: nat): (n: nat)
    requires pb.Valid() && bound <= pb.target
  {
    if bound == 0 then 0
    else Tails(pb, bound - 1) + if PartialTail(pb, bound - 1) then Ways(pb, bound - 1) else 0
  }

  /** The count the parser computes for a fallback, before clamping. */
  ghost function Predicted(pb: Problem): (n: nat)
    requires pb.Valid()
  {
    Ways(pb, pb.target) + Tails(pb, pb.target)
  }

  ghost predicate ForwardDone(pb: Problem, ways: seq<nat>, cursor: nat, length: nat)
    requires pb.Valid() && cursor <= pb.target
  {
    && |ways| == pb.target + 1
    && (forall c :: 0 <= c <= cursor ==> ways[c] == Clamp(Ways(pb, c)))
    && (forall c :: cursor < c <= pb.target ==>
          ways[c] == Clamp(Front(pb, c, if c <= cursor + length then cursor + 1 else cursor)))
  }

  lemma ForwardNext(pb: Problem, ways: seq<nat>, cursor: nat)
    requires pb.Valid() && cursor < pb.target
    requires ForwardDone(pb, ways, cursor, pb.Longest(cursor))
      || (ForwardDone(pb, ways, cursor, 0) && Ways(pb, cursor) == 0)
    ensures ForwardDone(pb, ways, cursor + 1, 0)
  {
    forall c | cursor < c <= pb.target
      ensures ways[c] == Clamp(Front(pb, c, cursor + 1))
    {
      assert Front(pb, c, cursor + 1) == Front(pb, c, cursor) + if Step(pb, cursor, c) then Ways(pb, cursor) else 0;
    }
  }

  lemma ForwardStep(pb: Problem, ways: seq<nat>, cursor: nat, length: nat)
    requires pb.Valid() && cursor < pb.target && 0 < length <= pb.Longest(cursor)
    requires ForwardDone(pb, ways, cursor, length - 1)
    ensures ForwardDone(pb, if Step(pb, cursor, cursor + length)
                            then ways[cursor + length := BoundedAdd(ways[cursor + length], ways[cursor])] else ways,
                        cursor, length)
  {
    var c := cursor + length;
    assert Front(pb, c, cursor + 1) == Front(pb, c, cursor) + if Step(pb, cursor, c) then Ways(pb, cursor) else 0;
    ClampAdds(Front(pb, c, cursor), Ways(pb, cursor));
  }

  /** Counts the fallback paths: the complete covers of the target, and those a partial tail finishes. */
  method CountFallback(pb: Problem) returns (count: nat)
    requires pb.Valid()
    ensures count == Clamp(Predicted(pb))
  {
    hide Front, Ways;
    var ways: seq<nat> := [1] + seq(pb.target, _ => 0);
    StartForward(pb, ways);
    for cursor := 0 to pb.target
      invariant ForwardDone(pb, ways, cursor, 0)
    {
      if ways[cursor] != 0 {
        for length := 0 to pb.Longest(cursor)
          invariant ForwardDone(pb, ways, cursor, length)
        {
          ForwardStep(pb, ways, cursor, length + 1);
          if pb.Lookup(cursor, length + 1).Some? {
            ways := ways[cursor + length + 1 := BoundedAdd(ways[cursor + length + 1], ways[cursor])];
          }
        }
      }
      ForwardNext(pb, ways, cursor);
    }
    count := ways[pb.target];
    for cursor := 0 to pb.target
      invariant count == Clamp(Ways(pb, pb.target) + Tails(pb, cursor))
    {
      if PartialTail(pb, cursor) {
        ClampAdds(Ways(pb, pb.target) + Tails(pb, cursor), Ways(pb, cursor));
        count := BoundedAdd(count, ways[cursor]);
      }
    }
  }

  lemma StartForward(pb: Problem, ways: seq<nat>)
    requires pb.Valid() && ways == [1] + seq(pb.target, _ => 0)
    ensures ForwardDone(pb, ways, 0, 0)
  {
  }

  // ---- the two counts are one sum, split at different places ----

  ghost predicate ShortPartials(tables: Tables) {
    forall s :: tables.partial(s) ==> |s| < MAX_SYLLABLE_LEN
  }

  ghost function Continuations(pb: Problem, cursor: nat): (n: nat)
    requires pb.Valid() && cursor <= pb.target
  {
    |pb.AllFrom(cursor)|
  }

  /** Paths from `from` whose first syllable is complete and ends at or before `end`. */
  ghost function Via(pb: Problem, from: nat, end: nat): (n: nat)
    requires pb.Valid() && from <= end <= pb.target
  {
    if end == from then 0
    else Via(pb, from, end - 1) + if Step(pb, from, end) then Continuations(pb, end) else 0
  }

  lemma {:induction false} PathsByFirst(pb: Problem, from: nat, length: nat)
    requires pb.Valid() && from < pb.target && length <= MAX_SYLLABLE_LEN && from + length <= pb.target
    ensures |pb.Paths(from, length)|
         == Via(pb, from, from + length) + if length > 0 && pb.EndsPartial(from, length) then 1 else 0
    decreases length
  {
    if length > 0 {
      PathsByFirst(pb, from, length - 1);
      assert Step(pb, from, from + length) <==> pb.Lookup(from, length).Some?;
    }
  }

  lemma {:induction false} ViaStops(pb: Problem, from: nat, end: nat)
    requires pb.Valid() && from + MAX_SYLLABLE_LEN <= end <= pb.target
    ensures Via(pb, from, end) == Via(pb, from, from + MAX_SYLLABLE_LEN)
    decreases end
  {
    if end > from + MAX_SYLLABLE_LEN { ViaStops(pb, from, end - 1); }
  }

  /** A partial syllable that the enumeration really ends a path with. */
  predicate Leaf(pb: Problem, cursor: nat)
    requires pb.Valid() && cursor <= pb.target
  {
    PartialTail(pb, cursor) && !Step(pb, cursor, pb.target)
  }

  lemma ContinuationsSplit(pb: Problem, from: nat)
    requires pb.Valid() && from < pb.target && pb.partials && ShortPartials(pb.tables)
    ensures Continuations(pb, from) == Via(pb, from, pb.target) + if Leaf(pb, from) then 1 else 0
  {
    var n := pb.Longest(from);
    PathsByFirst(pb, from, n);
    if n == MAX_SYLLABLE_LEN { ViaStops(pb, from, pb.target); }
    if pb.EndsPartial(from, n) {
      assert !Step(pb, from, pb.target);
    }
    if Leaf(pb, from) {
      assert |pb.group[from..pb.target]| < MAX_SYLLABLE_LEN;
      assert pb.EndsPartial(from, n);
    }
  }

  /** Over every position after `b` up to `end`: covers whose last syllable starts below `bound`, times
      continuations. */
  ghost function Across(pb: Problem, b: nat, bound: nat, end: nat): (n: nat)
    requires pb.Valid() && b <= end <= pb.target && bound <= b + 1
  {
    if end == b then 0
    else Across(pb, b, bound, end - 1) + Front(pb, end, bound) * Continuations(pb, end)
  }

  lemma Distribute(f: nat, w: nat, c: nat, v: nat)
    ensures (f + w) * c == f * c + w * c
    ensures w * (v + c) == w * v + w * c
  {
  }

  lemma FrontStep(pb: Problem, end: nat, b: nat)
    requires pb.Valid() && b < end <= pb.target
    ensures Front(pb, end, b + 1) == Front(pb, end, b) + if Step(pb, b, end) then Ways(pb, b) else 0
  {
  }

  lemma {:induction false} AcrossGrows(pb: Problem, b: nat, end: nat)
    requires pb.Valid() && b <= end <= pb.target
    ensures Across(pb, b, b + 1, end) == Across(pb, b, b, end) + Ways(pb, b) * Via(pb, b, end)
    decreases end
  {
    if end > b {
      hide Front;
      hide Continuations;
      hide Ways;
      AcrossGrows(pb, b, end - 1);
      FrontStep(pb, end, b);
      Distribute(Front(pb, end, b), Ways(pb, b), Continuations(pb, end), Via(pb, b, end - 1));
    }
  }

  lemma {:induction false} AcrossPeels(pb: Problem, b: nat, end: nat)
    requires pb.Valid() && b < end <= pb.target
    ensures Across(pb, b, b + 1, end)
         == Ways(pb, b + 1) * Continuations(pb, b + 1) + Across(pb, b + 1, b + 1, end)
    decreases end
  {
    if end > b + 1 { AcrossPeels(pb, b, end - 1); }
  }

  lemma {:induction false} AcrossNothing(pb: Problem, end: nat)
    requires pb.Valid() && end <= pb.target
    ensures Across(pb, 0, 0, end) == 0
  {
    if end > 0 { AcrossNothing(pb, end - 1); }
  }

  ghost function Leaves(pb: Problem, bound: nat): (n: nat)
    requires pb.Valid() && bound <= pb.target
  {
    if bound == 0 then 0
    else Leaves(pb, bound - 1) + if Leaf(pb, bound - 1) then Ways(pb, bound - 1) else 0
  }

  /** Every path crosses position `b`, or ended in a partial syllable that starts before it. */
  lemma {:induction false} CutAnywhere(pb: Problem, b: nat)
    requires pb.Valid() && b <= pb.target && pb.partials && ShortPartials(pb.tables)
    ensures Continuations(pb, 0)
         == Leaves(pb, b) + Ways(pb, b) * Continuations(pb, b) + Across(pb, b, b, pb.target)
  {
    hide *;
    if b == 0 {
      CutAtStart(pb);
    } else {
      var a := b - 1;
      CutAnywhere(pb, a);
      ContinuationsSplit(pb, a);
      AcrossGrows(pb, a, pb.target);
      AcrossPeels(pb, a, pb.target);
      LeavesStep(pb, a);
      Peel(Leaves(pb, a), Ways(pb, a), Continuations(pb, a), Across(pb, a, a, pb.target), Via(pb, a, pb.target),
          Leaf(pb, a),
           Ways(pb, b), Continuations(pb, b), Across(pb, b, b, pb.target));
    }
  }

  lemma CutAtStart(pb: Problem)
    requires pb.Valid()
    ensures Continuations(pb, 0) == Leaves(pb, 0) + Ways(pb, 0) * Continuations(pb, 0) + Across(pb, 0, 0, pb.target)
  {
    hide Across, Continuations;
    AcrossNothing(pb, pb.target);
    assert Ways(pb, 0) == 1;
  }

  lemma LeavesStep(pb: Problem, b: nat)
    requires pb.Valid() && b < pb.target
    ensures Leaves(pb, b + 1) == Leaves(pb, b) + if Leaf(pb, b) then Ways(pb, b) else 0
  {
    hide Leaf, Ways;
  }

  /** The arithmetic of moving the cut past one position. */
  lemma Peel(leaves: nat, ways: nat, continuations: nat, across: nat, via: nat, leaf: bool, ways': nat,
             continuations': nat, across': nat)
    requires continuations == via + if leaf then 1 else 0
    requires across + ways * via == ways' * continuations' + across'
    ensures leaves + ways * continuations + across ==
      leaves + (if leaf then ways else 0) + ways' * continuations' + across'
  {
    Distribute(0, ways, 1, via);
  }

  lemma AtEnd(pb: Problem)
    requires pb.Valid()
    ensures Across(pb, pb.target, pb.target, pb.target) == 0
  {
  }

  /** The enumerated fallback paths: complete covers, and covers finished by a partial syllable that is
      not complete under the options. */
  lemma EnumeratedCount(pb: Problem)
    requires pb.Valid() && pb.partials && ShortPartials(pb.tables)
    ensures |pb.AllFrom(0)| == Ways(pb, pb.target) + Leaves(pb, pb.target)
    ensures |CoverSet(pb)| == Ways(pb, pb.target) + Leaves(pb, pb.target)
  {
    hide Leaves, Ways, Across;
    AtEnd(pb);
    CutAnywhere(pb, pb.target);
    assert pb.AllFrom(pb.target) == [[]];
  }

  // ---- where the counts part ----

  ghost function Clashes(pb: Problem, bound: nat): (n: nat)
    requires pb.Valid() && bound <= pb.target
  {
    if bound == 0 then 0
    else Clashes(pb, bound - 1)
         + if PartialTail(pb, bound - 1) && Step(pb, bound - 1, pb.target) then Ways(pb, bound - 1) else 0
  }

  lemma {:induction false} TailsSplit(pb: Problem, bound: nat)
    requires pb.Valid() && bound <= pb.target
    ensures Tails(pb, bound) == Leaves(pb, bound) + Clashes(pb, bound)
  {
    if bound > 0 { TailsSplit(pb, bound - 1); }
  }

  /** A reachable tail that is complete under the options and partial under the defaults. */
  ghost predicate Clash(pb: Problem)
    requires pb.Valid()
  {
    exists c :: 0 <= c < pb.target && PartialTail(pb, c) && Step(pb, c, pb.target) && Ways(pb, c) > 0
  }

  lemma {:induction false} ClashesCounted(pb: Problem, bound: nat)
    requires pb.Valid() && bound <= pb.target
    ensures Clashes(pb, bound) > 0 <==>
            exists c :: 0 <= c < bound && PartialTail(pb, c) && Step(pb, c, pb.target) && Ways(pb, c) > 0
  {
    if bound > 0 { ClashesCounted(pb, bound - 1); }
  }

  /** The predicted count equals the enumerated one exactly when no reachable tail is both complete and
      partial; otherwise it is larger. */
  lemma PredictionIsExactIff(pb: Problem)
    requires pb.Valid() && pb.partials && ShortPartials(pb.tables)
    ensures Predicted(pb) >= |pb.AllFrom(0)|
    ensures Predicted(pb) == |pb.AllFrom(0)| <==> !Clash(pb)
  {
    EnumeratedCount(pb);
    TailsSplit(pb, pb.target);
    ClashesCounted(pb, pb.target);
  }

  // ---- one group ----

  datatype GroupResult = Parsed(paths: seq<Path>, consumed: nat, complete: bool) | TooManyAlternatives | CountMismatch

  predicate PartialSpan(pb: Problem, cursor: nat, length: nat)
    requires pb.Valid() && cursor + length <= pb.target
  {
    pb.tables.partial(pb.group[cursor..cursor + length])
  }

  /** A complete or partial syllable of `length` bytes starts at a reachable `cursor`. */
  ghost predicate Reaches(pb: Problem, cursor: nat, length: nat)
    requires pb.Valid() && cursor + length <= pb.target
  {
    Ways(pb, cursor) > 0 && 0 < length <= MAX_SYLLABLE_LEN
        && (pb.Lookup(cursor, length).Some? || PartialSpan(pb, cursor, length))
  }

  method LongestPartialPrefix(pb: Problem, cursor: nat) returns (n: nat)
    requires pb.Valid() && cursor <= pb.target
    ensures n <= pb.Longest(cursor)
    ensures n > 0 ==> PartialSpan(pb, cursor, n)
    ensures forall m :: n < m <= pb.Longest(cursor) ==> !PartialSpan(pb, cursor, m)
  {
    n := pb.Longest(cursor);
    while n > 0 && !PartialSpan(pb, cursor, n)
      invariant n <= pb.Longest(cursor)
      invariant forall m :: n < m <= pb.Longest(cursor) ==> !PartialSpan(pb, cursor, m)
    {
      n := n - 1;
    }
  }

  ghost predicate Marked(pb: Problem, reachable: seq<bool>, cursor: nat, length: nat)
    requires pb.Valid() && cursor <= pb.target
  {
    && |reachable| == pb.target + 1
    && (forall c :: 0 <= c <= cursor ==> (reachable[c] <==> Ways(pb, c) > 0))
    && (forall c :: cursor < c <= pb.target ==>
          (reachable[c] <==> Front(pb, c, if c <= cursor + length then cursor + 1 else cursor) > 0))
  }

  lemma MarkNext(pb: Problem, reachable: seq<bool>, cursor: nat)
    requires pb.Valid() && cursor < pb.target
    requires Marked(pb, reachable, cursor, pb.Longest(cursor))
      || (Marked(pb, reachable, cursor, 0) && Ways(pb, cursor) == 0)
    ensures Marked(pb, reachable, cursor + 1, 0)
  {
    forall c | cursor < c <= pb.target
      ensures reachable[c] <==> Front(pb, c, cursor + 1) > 0
    {
      FrontStep(pb, c, cursor);
    }
  }

  /** `target` is the farthest end of a complete or partial syllable that starts at a reachable position
      below `bound`; 0 when there is none. */
  ghost predicate Farthest(pb: Problem, bound: nat, target: nat)
    requires pb.Valid()
  {
    && target <= pb.target
    && (target > 0 ==> exists c, n :: 0 <= c && 0 <= n && c + n == target && Reaches(pb, c, n))
    && (forall c, n :: 0 <= c < bound && 0 <= n && c + n <= pb.target && Reaches(pb, c, n) ==> c + n <= target)
  }

  ghost predicate Within(reachable: seq<bool>, target: nat) {
    forall c :: 0 <= c < |reachable| && reachable[c] ==> c <= target
  }

  lemma MarkStep(pb: Problem, reachable: seq<bool>, cursor: nat, length: nat)
    requires pb.Valid() && cursor < pb.target && 0 < length <= pb.Longest(cursor) && Ways(pb, cursor) > 0
    requires Marked(pb, reachable, cursor, length - 1)
    ensures pb.Lookup(cursor, length).Some? ==>
              Reaches(pb, cursor, length) && Marked(pb, reachable[cursor + length := true], cursor, length)
    ensures pb.Lookup(cursor, length).None? ==> Marked(pb, reachable, cursor, length)
  {
    FrontStep(pb, cursor + length, cursor);
  }

  /** Marks what the complete syllables at a reachable `cursor` reach. */
  method MarkFrom(pb: Problem, reachable: seq<bool>, cursor: nat, target: nat)
                  returns (marked: seq<bool>, farthest: nat)
    requires pb.Valid() && cursor < pb.target && target <= pb.target
    requires Marked(pb, reachable, cursor, 0) && Within(reachable, target) && Ways(pb, cursor) > 0
    ensures Marked(pb, marked, cursor, pb.Longest(cursor)) && Within(marked, farthest)
    ensures target <= farthest <= pb.target
    ensures farthest == target || (farthest > cursor && Reaches(pb, cursor, farthest - cursor))
    ensures forall n :: 0 < n <= pb.Longest(cursor) && pb.Lookup(cursor, n).Some? ==> cursor + n <= farthest
  {
    hide Front;
    hide Ways;
    marked, farthest := reachable, target;
    for length := 0 to pb.Longest(cursor)
      invariant Marked(pb, marked, cursor, length) && Within(marked, farthest)
      invariant target <= farthest <= pb.target
      invariant farthest == target || (farthest > cursor && Reaches(pb, cursor, farthest - cursor))
      invariant forall n :: 0 < n <= length && pb.Lookup(cursor, n).Some? ==> cursor + n <= farthest
    {
      MarkStep(pb, marked, cursor, length + 1);
      if pb.Lookup(cursor, length + 1).Some? {
        marked := marked[cursor + length + 1 := true];
        if cursor + length + 1 > farthest { farthest := cursor + length + 1; }
      }
    }
  }

  lemma FarthestNext(pb: Problem, cursor: nat, target: nat, partial: nat, farthest: nat)
    requires pb.Valid() && cursor < pb.target && Farthest(pb, cursor, target)
    requires target <= farthest <= pb.target && partial <= pb.Longest(cursor) && cursor + partial <= farthest
    requires farthest == target || (farthest > cursor && Reaches(pb, cursor, farthest - cursor))
    requires forall m :: partial < m <= pb.Longest(cursor) ==> !PartialSpan(pb, cursor, m)
    requires forall n :: 0 < n <= pb.Longest(cursor) && pb.Lookup(cursor, n).Some? ==> cursor + n <= farthest
    ensures Farthest(pb, cursor + 1, farthest)
  {
    if farthest != target {
      assert cursor + (farthest - cursor) == farthest;
    }
    forall n | 0 <= n && cursor + n <= pb.target && Reaches(pb, cursor, n)
      ensures cursor + n <= farthest
    {
      assert n <= pb.Longest(cursor);
    }
  }

  /** The farthest byte that a complete or partial syllable from a reachable position ends at. */
  method MaximalFallbackEnd(pb: Problem) returns (target: nat)
    requires pb.Valid()
    ensures Farthest(pb, pb.target, target)
  {
    var reachable := [true] + seq(pb.target, _ => false);
    target := 0;
    assert Marked(pb, reachable, 0, 0);
    for cursor := 0 to pb.target
      invariant Marked(pb, reachable, cursor, 0) && Within(reachable, target) && Farthest(pb, cursor, target)
    {
      hide Farthest;
      if reachable[cursor] {
        var partial := LongestPartialPrefix(pb, cursor);
        var farthest := if cursor + partial > target then cursor + partial else target;
        reachable, farthest := MarkFrom(pb, reachable, cursor, farthest);
        FarthestNext(pb, cursor, target, partial, farthest);
        target := farthest;
      } else {
        FarthestSkips(pb, cursor, target);
      }
      MarkNext(pb, reachable, cursor);
    }
  }

  lemma FarthestSkips(pb: Problem, cursor: nat, target: nat)
    requires pb.Valid() && cursor < pb.target && Farthest(pb, cursor, target) && Ways(pb, cursor) == 0
    ensures Farthest(pb, cursor + 1, target)
  {
  }

  // ---- counts do not depend on where the paths must end ----

  /** `Ways` counts real paths: those that cover `0..end` with complete syllables, each once. */
  lemma WaysAreCovers(pb: Problem, end: nat)
    requires pb.Valid() && end <= pb.target
    ensures Ways(pb, end) == |pb.(target := end, partials := false).AllFrom(0)|
    ensures Ways(pb, end) == |CoverSet(pb.(target := end, partials := false))|
  {
    var none := pb.(tables := pb.tables.(partial := _ => false), target := end, partials := true);
    EnumeratedCount(none);
    NoLeaves(none, end);
    var plain := pb.(target := end, partials := false);
    SameWithoutPartials(none, plain, 0, plain.Longest(0));
    FrontIgnoresTarget(pb, none, end, end);
  }

  lemma {:induction false} NoLeaves(pb: Problem, bound: nat)
    requires pb.Valid() && bound <= pb.target && (forall s :: !pb.tables.partial(s))
    ensures Leaves(pb, bound) == 0
  {
    if bound > 0 { NoLeaves(pb, bound - 1); }
  }

  lemma {:induction false} FrontIgnoresTarget(pb: Problem, pb': Problem, end: nat, bound: nat)
    requires pb.Valid() && pb'.Valid() && pb.tables.complete == pb'.tables.complete && pb.group == pb'.group
    requires bound <= end <= pb.target && end <= pb'.target
    ensures Front(pb, end, bound) == Front(pb', end, bound)
    decreases end, bound
  {
    if bound > 0 {
      FrontIgnoresTarget(pb, pb', end, bound - 1);
      FrontIgnoresTarget(pb, pb', bound - 1, bound - 1);
    }
  }

  lemma {:induction false} SameWithoutPartials(pb: Problem, plain: Problem, cursor: nat, length: nat)
    requires pb.Valid() && (forall s :: !pb.tables.partial(s)) && !plain.partials
    requires plain.group == pb.group && plain.offset == pb.offset && plain.target == pb.target
    requires plain.tables.complete == pb.tables.complete && cursor + length <= pb.target
    ensures |pb.Paths(cursor, length)| == |plain.Paths(cursor, length)|
    decreases pb.target - cursor, length
  {
    if cursor < pb.target && length > 0 {
      SameWithoutPartials(pb, plain, cursor, length - 1);
      SameWithoutPartials(pb, plain, cursor + length, pb.Longest(cursor + length));
      assert |pb.StartingWith(cursor, length)| == |plain.StartingWith(cursor, length)|;
    }
  }

  // ---- the group parser ----

  lemma FarthestIsUnique(pb: Problem, s: nat, t: nat)
    requires pb.Valid() && Farthest(pb, pb.target, s) && Farthest(pb, pb.target, t)
    ensures s == t
  {
    hide Ways;
  }

  /** The farthest end of a syllable from a reachable position, at most `n`. */
  ghost function FallbackEnd(pb: Problem, n: nat): (target: nat)
    requires pb.Valid() && n <= pb.target
    ensures target <= n
  {
    if n == 0 then 0
    else if exists c, m :: 0 <= c && 0 <= m && c + m == n && Reaches(pb, c, m) then n
    else FallbackEnd(pb, n - 1)
  }

  lemma {:induction false} FallbackEndIsMaximal(pb: Problem, n: nat)
    requires pb.Valid() && n <= pb.target
    ensures FallbackEnd(pb, n) > 0 ==>
      exists c, m :: 0 <= c && 0 <= m && c + m == FallbackEnd(pb, n) && Reaches(pb, c, m)
    ensures forall c, m :: 0 <= c && 0 <= m && c + m <= n && Reaches(pb, c, m) ==> c + m <= FallbackEnd(pb, n)
    decreases n
  {
    hide Reaches;
    if n > 0 { FallbackEndIsMaximal(pb, n - 1); }
  }

  lemma FallbackEndIsFarthest(pb: Problem)
    requires pb.Valid()
    ensures Farthest(pb, pb.target, FallbackEnd(pb, pb.target))
  {
    hide Reaches, FallbackEnd;
    FallbackEndIsMaximal(pb, pb.target);
  }

  /** What a group is parsed as: the whole of it, or the part up to the farthest fallback end where no path completes
      it. */
  ghost function GroupProblem(tables: Tables, group: string, offset: nat): (pb: Problem)
    ensures pb.Valid() && pb.tables == tables && pb.group == group && pb.offset == offset
  {
    var whole := Problem(tables, group, offset, |group|, false);
    if |whole.AllFrom(0)| > 0 then whole else whole.(target := FallbackEnd(whole, |group|), partials := true)
  }

  /** What stops a group: too many paths, or counts that part. */
  ghost function GroupTrouble(pb: Problem): (r: Option<GroupResult>)
    requires pb.Valid()
    ensures r.Some? ==> !r.value.Parsed?
  {
    if !pb.partials then if |pb.AllFrom(0)| > MAX_PARSE_RESULTS then Some(TooManyAlternatives) else None
    else if Predicted(pb) > MAX_PARSE_RESULTS then Some(TooManyAlternatives)
    else if Clash(pb) then Some(CountMismatch)
    else None
  }

  ghost function GroupAnswer(tables: Tables, group: string, offset: nat): (r: GroupResult) {
    var pb := GroupProblem(tables, group, offset);
    match GroupTrouble(pb)
    case Some(trouble) => trouble
    case None => Parsed(pb.AllFrom(0), pb.target, !pb.partials)
  }

  /** The group parser's contract names one answer. */
  lemma OneAnswer(tables: Tables, group: string, offset: nat, target: nat, r: GroupResult)
    requires var whole := Problem(tables, group, offset, |group|, false);
      && |whole.AllFrom(0)| == 0 && Farthest(whole, |group|, target)
      && FallbackResult(whole.(target := target, partials := true), r)
    ensures r == GroupAnswer(tables, group, offset)
  {
    hide Farthest, FallbackEnd, Predicted, Clash;
    var whole := Problem(tables, group, offset, |group|, false);
    FallbackEndIsFarthest(whole);
    FarthestIsUnique(whole, target, FallbackEnd(whole, |group|));
  }

  /** Parses one group: every complete path, or, where there is none, every path to the farthest fallback
      end.  The mismatch assertion of the source is a result of its own. */
  method ParseGroup(tables: Tables, group: string, offset: nat) returns (r: GroupResult)
    requires ShortPartials(tables)
    ensures var whole := Problem(tables, group, offset, |group|, false);
      |whole.AllFrom(0)| > 0 ==>
        r == if |whole.AllFrom(0)| > MAX_PARSE_RESULTS then TooManyAlternatives
             else Parsed(whole.AllFrom(0), |group|, true)
    ensures |Problem(tables, group, offset, |group|, false).AllFrom(0)| == 0 ==>
      exists target :: 0 <= target <= |group|
                       && Farthest(Problem(tables, group, offset, |group|, false), |group|, target)
                       && FallbackResult(Problem(tables, group, offset, target, true), r)
    ensures r == GroupAnswer(tables, group, offset)
  {
    hide GroupAnswer, Ways, Predicted, Clash, Reaches;
    var whole := Problem(tables, group, offset, |group|, false);
    WholeAnswer(tables, group, offset);
    var count := CountComplete(whole);
    if count > MAX_PARSE_RESULTS { return TooManyAlternatives; }
    if count != 0 {
      var paths := Enumerate(whole);
      return Parsed(paths, |group|, true);
    }
    var target := MaximalFallbackEnd(whole);
    var pb := Problem(tables, group, offset, target, true);
    var expected := CountFallback(pb);
    PredictionIsExactIff(pb);
    if expected > MAX_PARSE_RESULTS {
      r := TooManyAlternatives;
    } else {
      var paths := Enumerate(pb);
      r := if |paths| == expected then Parsed(paths, target, false) else CountMismatch;
    }
    assert whole.(target := target, partials := true) == pb;
    OneAnswer(tables, group, offset, target, r);
  }

  lemma WholeAnswer(tables: Tables, group: string, offset: nat)
    ensures var whole := Problem(tables, group, offset, |group|, false);
      |whole.AllFrom(0)| > 0 ==>
        GroupAnswer(tables, group, offset) == if |whole.AllFrom(0)| > MAX_PARSE_RESULTS then TooManyAlternatives
                                              else Parsed(whole.AllFrom(0), |group|, true)
  {
    hide Predicted, Clash, FallbackEnd;
  }

  /** What a fallback to `pb.target` answers: every path, unless the count is over the limit, or unless a reachable
      tail is both complete under the options and partial under the defaults. */
  ghost predicate FallbackResult(pb: Problem, r: GroupResult)
    requires pb.Valid()
  {
    r == if Predicted(pb) > MAX_PARSE_RESULTS then TooManyAlternatives
         else if Clash(pb) then CountMismatch
         else Parsed(pb.AllFrom(0), pb.target, false)
  }

  /** Where the two tests exclude each other, as they do under the default options, the counts always agree. */
  lemma DefaultsNeverClash(pb: Problem)
    requires pb.Valid() && pb.partials && ShortPartials(pb.tables)
    requires forall s :: pb.tables.partial(s) ==> pb.tables.complete(s).None?
    ensures !Clash(pb)
    ensures Predicted(pb) == |pb.AllFrom(0)| == |CoverSet(pb)|
  {
    PredictionIsExactIff(pb);
    hide Clash;
    EnumeratedCount(pb);
  }

  /** The lookups under some options: the counts agree on every problem exactly when no non-empty text passes both
      tests. */
  lemma AlwaysAgreeIff(tables: Tables)
    requires ShortPartials(tables)
    ensures (forall pb: Problem :: pb.Valid() && pb.tables == tables && pb.partials ==>
      Predicted(pb) == |pb.AllFrom(0)|)
       <==> (forall s :: s != "" && tables.partial(s) ==> tables.complete(s).None?)
  {
    hide Predicted, Ways, Clash;
    if forall s :: s != "" && tables.partial(s) ==> tables.complete(s).None? {
      forall pb: Problem | pb.Valid() && pb.tables == tables && pb.partials
        ensures Predicted(pb) == |pb.AllFrom(0)|
      {
        PredictionIsExactIff(pb);
        NoTextNoClash(pb);
      }
    } else {
      var s :| s != "" && tables.partial(s) && tables.complete(s).Some?;
      var pb := Problem(tables, s, 0, |s|, true);
      WholeTextClashes(pb, s);
      PredictionIsExactIff(pb);
    }
  }

  lemma NoTextNoClash(pb: Problem)
    requires pb.Valid() && forall s :: s != "" && pb.tables.partial(s) ==> pb.tables.complete(s).None?
    ensures !Clash(pb)
  {
    hide Ways;
  }

  lemma WholeTextClashes(pb: Problem, s: string)
    requires s != "" && ShortPartials(pb.tables) && pb.tables.partial(s) && pb.tables.complete(s).Some?
    requires pb == Problem(pb.tables, s, 0, |s|, true)
    ensures pb.Valid() && Clash(pb)
  {
    assert s[0..|s|] == s;
    assert Ways(pb, 0) == 1;
    assert PartialTail(pb, 0) && Step(pb, 0, pb.target);
  }

  /** Texts that end in `x` after a part of `s` are neither complete nor partial. */
  ghost predicate Blocks(tables: Tables, s: string, x: char) {
    forall i :: 0 <= i <= |s| ==> tables.complete(s[i..] + [x]).None? && !tables.partial(s[i..] + [x])
  }

  lemma NoSpanReaches(tables: Tables, s: string, x: char, offset: nat, c: nat, n: nat)
    requires Blocks(tables, s, x) && c + n == |s| + 1 && n > 0
    ensures var whole := Problem(tables, s + [x], offset, |s| + 1, false);
      whole.Lookup(c, n).None? && !PartialSpan(whole, c, n)
  {
    assert (s + [x])[c..c + n] == s[c..] + [x];
  }

  lemma BlockedHasNoPath(tables: Tables, s: string, x: char, offset: nat)
    requires Blocks(tables, s, x)
    ensures |Problem(tables, s + [x], offset, |s| + 1, false).AllFrom(0)| == 0
  {
    hide Blocks;
    var whole := Problem(tables, s + [x], offset, |s| + 1, false);
    forall from | 0 <= from < |s| + 1
      ensures !Step(whole, from, whole.target)
    {
      NoSpanReaches(tables, s, x, offset, from, |s| + 1 - from);
    }
    WaysAreCovers(whole, |s| + 1);
    assert whole.(target := |s| + 1, partials := false) == whole;
    NoFront(whole, |s| + 1);
  }

  lemma {:induction false} NoFront(pb: Problem, bound: nat)
    requires pb.Valid() && 0 < pb.target && bound <= pb.target
    requires forall from :: 0 <= from < pb.target ==> !Step(pb, from, pb.target)
    ensures Front(pb, pb.target, bound) == 0
    decreases bound
  {
    if bound > 0 {
      NoFront(pb, bound - 1);
    }
  }

  lemma BlockedEnd(tables: Tables, s: string, x: char, offset: nat)
    requires s != "" && Blocks(tables, s, x) && tables.complete(s).Some? && |s| <= MAX_SYLLABLE_LEN
    ensures FallbackEnd(Problem(tables, s + [x], offset, |s| + 1, false), |s| + 1) == |s|
  {
    hide Blocks, FallbackEnd, Ways;
    var whole := Problem(tables, s + [x], offset, |s| + 1, false);
    FallbackEndIsMaximal(whole, |s| + 1);
    var end := FallbackEnd(whole, |s| + 1);
    assert (s + [x])[0..|s|] == s;
    StartIsReached(whole);
    assert Reaches(whole, 0, |s|);
    if end == |s| + 1 {
      var c, m :| 0 <= c && 0 <= m && c + m == end && Reaches(whole, c, m);
      NoSpanReaches(tables, s, x, offset, c, m);
      assert false;
    }
    assert 0 + |s| <= end;
  }

  lemma StartIsReached(pb: Problem)
    requires pb.Valid()
    ensures Ways(pb, 0) == 1
  {
  }

  /** Fewer than six letters have few paths. */
  lemma {:induction false} FewFronts(pb: Problem, end: nat, bound: nat)
    requires pb.Valid() && bound <= end <= pb.target
    ensures Front(pb, end, bound) <= Doubled(bound)
    decreases end, bound
  {
    if bound > 0 {
      FewFronts(pb, end, bound - 1);
      FewFronts(pb, bound - 1, bound - 1);
    }
  }

  function Doubled(n: nat): (p: nat) { if n == 0 then 1 else 2 * Doubled(n - 1) }

  lemma {:induction false} FewTails(pb: Problem, bound: nat)
    requires pb.Valid() && bound <= pb.target
    ensures Tails(pb, bound) < Doubled(bound)
  {
    if bound > 0 {
      FewTails(pb, bound - 1);
      FewFronts(pb, bound - 1, bound - 1);
    }
  }

  lemma {:induction false} DoubledGrows(m: nat, n: nat)
    requires m <= n
    ensures Doubled(m) <= Doubled(n)
    decreases n
  {
    if m < n { DoubledGrows(m, n - 1); }
  }

  lemma FewPredicted(pb: Problem)
    requires pb.Valid() && pb.target <= MAX_SYLLABLE_LEN
    ensures Predicted(pb) <= MAX_PARSE_RESULTS
  {
    hide Front, Tails;
    FewFronts(pb, pb.target, pb.target);
    FewTails(pb, pb.target);
    DoubledGrows(pb.target, 6);
    assert Doubled(6) == 64 by { assert Doubled(3) == 8; }
  }

  /** Any text that is both complete and partial makes a group on which the parser's assertion fails: follow it by a
      letter that no syllable goes on with. */
  lemma EveryClashIsReached(tables: Tables, s: string, x: char, offset: nat)
    requires ShortPartials(tables) && s != "" && tables.partial(s) && tables.complete(s).Some? && Blocks(tables, s, x)
    ensures GroupAnswer(tables, s + [x], offset) == CountMismatch
  {
    hide Blocks, FallbackEnd, Predicted;
    BlockedHasNoPath(tables, s, x, offset);
    BlockedEnd(tables, s, x, offset);
    var pb := GroupProblem(tables, s + [x], offset);
    assert pb == Problem(tables, s + [x], offset, |s|, true);
    FewPredicted(pb);
    StartIsReached(pb);
    assert pb.group[0..|s|] == s;
    assert PartialTail(pb, 0) && Step(pb, 0, pb.target);
  }

  /** Where every text can be blocked, no group fails the assertion exactly when no non-empty text is both complete
      and partial. */
  lemma NoGroupMismatchesIff(tables: Tables)
    requires ShortPartials(tables) && forall s :: s != "" && tables.partial(s) && tables.complete(s).Some? ==>
      exists x :: Blocks(tables, s, x)
    ensures (forall group, offset :: GroupAnswer(tables, group, offset) != CountMismatch)
       <==> (forall s :: s != "" && tables.partial(s) ==> tables.complete(s).None?)
  {
    hide Blocks, GroupAnswer;
    if forall s :: s != "" && tables.partial(s) ==> tables.complete(s).None? {
      forall group, offset
        ensures GroupAnswer(tables, group, offset) != CountMismatch
      {
        NoClashNoMismatch(tables, group, offset);
      }
    } else {
      var s :| s != "" && tables.partial(s) && tables.complete(s).Some?;
      var x :| Blocks(tables, s, x);
      EveryClashIsReached(tables, s, x, 0);
    }
  }

  lemma NoClashNoMismatch(tables: Tables, group: string, offset: nat)
    requires forall s :: s != "" && tables.partial(s) ==> tables.complete(s).None?
    ensures GroupAnswer(tables, group, offset) != CountMismatch
  {
    hide Clash, Predicted, FallbackEnd;
    NoTextNoClash(GroupProblem(tables, group, offset));
  }

  // ---- a group on which the counts part ----

  /** The lookups that the group "suav" meets under the option that reads `s` as `sh`: `sua` then spells `shua`, and
      it is also a proper prefix of `suan`. */
  function SuaTables(): (t: Tables) {
    Tables(s =>
             if s == "su" then Some("su") else if s == "a" then Some("a")
             else if s == "sua" then Some("shua") else None,
           s => s == "s" || s == "sua")
  }

  function SuaProblem(target: nat, partials: bool): (pb: Problem) {
    Problem(SuaTables(), "suav", 0, target, partials)
  }

  lemma SuaSpans(from: nat, end: nat)
    requires from < end <= 4
    ensures SuaTables().complete("suav"[from..end]).Some? <==> (from, end) in {(0, 2), (0, 3), (2, 3)}
    ensures SuaTables().partial("suav"[from..end]) <==> (from, end) in {(0, 1), (0, 3)}
  {
    var span := "suav"[from..end];
    assert |span| == end - from && span[0] == "suav"[from] && span[|span| - 1] == "suav"[end - 1];
  }

  lemma SuaWays(target: nat, partials: bool)
    requires 3 <= target <= 4
    ensures var pb := SuaProblem(target, partials);
      Ways(pb, 0) == 1 && Ways(pb, 1) == 0 && Ways(pb, 2) == 1 && Ways(pb, 3) == 2 && (target == 4 ==> Ways(pb, 4) == 0)
  {
    var pb := SuaProblem(target, partials);
    forall from, end | 0 <= from < end <= target
      ensures Step(pb, from, end) <==> (from, end) in {(0, 2), (0, 3), (2, 3)}
    {
      SuaSpans(from, end);
    }
    assert Front(pb, 1, 0) == 0 && Front(pb, 2, 0) == 0 && Front(pb, 3, 0) == 0;
    assert Front(pb, 2, 1) == 1 && Front(pb, 3, 1) == 1;
    assert Front(pb, 3, 2) == 1;
    if target == 4 {
      assert Front(pb, 4, 0) == 0 && Front(pb, 4, 1) == 0 && Front(pb, 4, 2) == 0 && Front(pb, 4, 3) == 0;
    }
  }

  lemma SuaFarthest()
    ensures Farthest(SuaProblem(4, false), 4, 3)
  {
    var whole := SuaProblem(4, false);
    SuaWays(4, false);
    SuaSpans(0, 3);
    assert Reaches(whole, 0, 3);
    forall c, n | 0 <= c < 4 && 0 <= n && c + n <= 4 && Reaches(whole, c, n)
      ensures c + n <= 3
    {
      SuaSpans(c, c + n);
    }
  }

  lemma SuaTails(pb: Problem)
    requires pb == SuaProblem(3, true)
    ensures Tails(pb, 3) == 1 && Leaves(pb, 3) == 0
  {
    hide Front, Ways;
    SuaWays(3, true);
    SuaSpans(0, 3);
    SuaSpans(1, 3);
    SuaSpans(2, 3);
    assert Tails(pb, 1) == 1 && Tails(pb, 2) == 1;
    assert Leaves(pb, 1) == 0 && Leaves(pb, 2) == 0;
  }

  lemma SuaCounts(pb: Problem)
    requires pb == SuaProblem(3, true)
    ensures Predicted(pb) == 3 && |pb.AllFrom(0)| == 2
  {
    hide Front, Ways, Tails, Leaves, pb.AllFrom;
    SuaWays(3, true);
    SuaTails(pb);
    EnumeratedCount(pb);
  }

  /** "suav" has two fallback paths to byte 3, the only byte the parser may fall back to, but three are predicted:
      whatever target it chooses, the assertion fails. */
  lemma SuavMismatches(whole: Problem, pb: Problem)
    requires whole == SuaProblem(4, false) && pb == SuaProblem(3, true)
    ensures |whole.AllFrom(0)| == 0 && Farthest(whole, 4, 3)
    ensures Predicted(pb) == 3 && |pb.AllFrom(0)| == 2
    ensures forall target: nat, r ::
              (&& target <= 4 && Farthest(whole, 4, target)
               && FallbackResult(whole.(target := target, partials := true), r))
              ==> target == 3 && r == CountMismatch
  {
    hide Farthest, Predicted, Clash, Ways, whole.AllFrom;
    SuaWays(4, false);
    WaysAreCovers(whole, 4);
    assert whole.(target := 4, partials := false) == whole;
    SuaFarthest();
    SuaCounts(pb);
    assert ShortPartials(SuaTables());
    PredictionIsExactIff(pb);
    assert whole.(target := 3, partials := true) == pb;
    forall target: nat, r | target <= 4 && Farthest(whole, 4, target)
        && FallbackResult(whole.(target := target, partials := true), r)
      ensures target == 3 && r == CountMismatch
    {
      FarthestIsUnique(whole, target, 3);
    }
  }
}
