/** A whole input: groups of letters, parted by apostrophes, parsed one after another and joined. */
module ParserInput {
  import opened Outcomes
  import opened ParserPaths
  import opened ParserCounts

  const MARK := '\''

  predicate Lower(c: char) { 'a' <= c <= 'z' }

  /** The end of the letters, and of the apostrophes, that start at `from`. */
  function LettersEnd(input: string, from: nat): (end: nat)
    requires from <= |input|
    ensures from <= end <= |input| && (end < |input| ==> !Lower(input[end]))
    ensures forall i :: from <= i < end ==> Lower(input[i])
    decreases |input| - from
  {
    if from < |input| && Lower(input[from]) then LettersEnd(input, from + 1) else from
  }

  function MarksEnd(input: string, from: nat): (end: nat)
    requires from <= |input|
    ensures from <= end <= |input| && (end < |input| ==> input[end] != MARK)
    ensures forall i :: from <= i < end ==> input[i] == MARK
    decreases |input| - from
  {
    if from < |input| && input[from] == MARK then MarksEnd(input, from + 1) else from
  }

  method SkipMarks(input: string, from: nat) returns (end: nat)
    requires from <= |input|
    ensures end == MarksEnd(input, from)
  {
    end := from;
    while end < |input| && input[end] == MARK
      invariant from <= end <= |input| && MarksEnd(input, from) == MarksEnd(input, end)
    {
      end := end + 1;
    }
  }

  // ---- joining ----

  /** Every left path with every right path, left by left. */
  function Combine(left: seq<Path>, right: seq<Path>): (r: seq<Path>)
    decreases |left|
  {
    if left == [] then [] else Combine(left[..|left| - 1], right) + Prefixed(left[|left| - 1], right)
  }

  lemma {:induction false} CombineSize(left: seq<Path>, right: seq<Path>)
    ensures |Combine(left, right)| == |left| * |right|
    decreases |left|
  {
    if left != [] {
      CombineSize(left[..|left| - 1], right);
      OneMore(|left| - 1, |right|);
    }
  }

  lemma OneMore(n: nat, m: nat)
    ensures n * m + m == (n + 1) * m
  {
  }

  /** The product of two path sets, unless it is too large. */
  method CombinePaths(left: seq<Path>, right: seq<Path>) returns (r: Option<seq<Path>>)
    ensures r == if |Combine(left, right)| > MAX_PARSE_RESULTS then None else Some(Combine(left, right))
  {
    CombineSize(left, right);
    if |left| * |right| > MAX_PARSE_RESULTS { return None; }
    var combined: seq<Path> := [];
    for i := 0 to |left|
      invariant combined == Combine(left[..i], right)
    {
      ghost var before := combined;
      for j := 0 to |right|
        invariant combined == before + Prefixed(left[i], right)[..j]
      {
        combined := combined + [left[i] + right[j]];
        assert Prefixed(left[i], right)[..j + 1] == Prefixed(left[i], right)[..j] + [left[i] + right[j]];
      }
      assert Prefixed(left[i], right)[..|right|] == Prefixed(left[i], right);
      assert left[..i + 1][..i] == left[..i];
    }
    assert left[..|left|] == left;
    return Some(combined);
  }

  ghost predicate AllValid(groups: seq<Problem>) { forall i :: 0 <= i < |groups| ==> groups[i].Valid() }

  /** The paths of several groups, joined in order. */
  ghost function Product(groups: seq<Problem>): (r: seq<Path>)
    requires AllValid(groups)
    decreases |groups|
  {
    if groups == [] then [[]]
    else
      var last := |groups| - 1;
      Combine(Product(groups[..last]), groups[last].AllFrom(0))
  }

  // ---- what is parsed ----

  /** The groups that are joined, where the remainder starts, and what stops the parse after them. */
  datatype Plan = Plan(groups: seq<Problem>, remainder: nat, trouble: Option<GroupResult>)

  function Before(pb: Problem, rest: Plan): (r: Plan) { rest.(groups := [pb] + rest.groups) }

  /** The plan from `cursor`; a group that consumes nothing leaves the remainder at `separator`, the apostrophes
      before it included. */
  ghost function PlanFrom(tables: Tables, input: string, cursor: nat, separator: nat): (r: Plan)
    requires cursor <= |input|
    decreases |input| - cursor
  {
    var end := LettersEnd(input, cursor);
    if end == cursor then Plan([], separator, None)
    else
      var pb := GroupProblem(tables, input[cursor..end], cursor);
      if GroupTrouble(pb).Some? then Plan([], separator, GroupTrouble(pb))
      else if pb.target == 0 then Plan([], separator, None)
      else if pb.partials then Plan([pb], cursor + pb.target, None)
      else
        var next := MarksEnd(input, end);
        if next == end || next == |input| || !Lower(input[next]) then Plan([pb], end, None)
        else Before(pb, PlanFrom(tables, input, next, end))
  }

  /** Apostrophes before the first group are skipped, if a letter follows them. */
  ghost function Planned(tables: Tables, input: string): (r: Plan) {
    var start := MarksEnd(input, 0);
    if start > 0 && (start == |input| || !Lower(input[start])) then Plan([], 0, None)
    else PlanFrom(tables, input, start, 0)
  }

  datatype InputResult = Parses(paths: seq<Path>, remainder: nat) | TooMany | Mismatch

  function Stopped(trouble: GroupResult): (r: InputResult) {
    if trouble == CountMismatch then Mismatch else TooMany
  }

  /** The answer: one limit on the final product decides, whatever the products on the way. */
  ghost function InputAnswer(plan: Plan): (r: InputResult)
    requires AllValid(plan.groups)
  {
    if |Product(plan.groups)| > MAX_PARSE_RESULTS then TooMany
    else if plan.trouble.Some? then Stopped(plan.trouble.value)
    else Parses(Product(plan.groups), plan.remainder)
  }

  // ---- groups have paths, so products only grow ----

  ghost predicate AllParsed(groups: seq<Problem>) {
    forall i :: 0 <= i < |groups| ==> groups[i].Valid() && |groups[i].AllFrom(0)| > 0
  }

  /** A group that consumes something has a path to where it stops. */
  lemma GroupHasPaths(tables: Tables, group: string, offset: nat)
    requires ShortPartials(tables)
    ensures |GroupProblem(tables, group, offset).AllFrom(0)| > 0
  {
    var whole := Problem(tables, group, offset, |group|, false);
    if |whole.AllFrom(0)| == 0 {
      FallbackHasPaths(whole, FallbackEnd(whole, |group|));
    }
  }

  lemma FallbackHasPaths(whole: Problem, target: nat)
    requires whole.Valid() && ShortPartials(whole.tables) && target == FallbackEnd(whole, whole.target)
    ensures |whole.(target := target, partials := true).AllFrom(0)| > 0
  {
    hide FallbackEnd, Ways, Leaves;
    var pb := whole.(target := target, partials := true);
    EnumeratedCount(pb);
    if target == 0 {
      StartIsReached(pb);
    } else {
      FallbackEndIsMaximal(whole, whole.target);
      var c, n :| 0 <= c && 0 <= n && c + n == target && Reaches(whole, c, n);
      WaysAgree(whole, pb, c);
      ReachedEnd(pb, c, n);
    }
  }

  lemma WaysAgree(whole: Problem, pb: Problem, c: nat)
    requires whole.Valid() && pb.Valid() && pb == whole.(target := pb.target, partials := true)
      && c <= pb.target <= whole.target
    ensures Ways(pb, c) == Ways(whole, c)
  {
    hide Front;
    FrontIgnoresTarget(whole, pb, c, c);
  }

  lemma ReachedEnd(pb: Problem, c: nat, n: nat)
    requires pb.Valid() && pb.partials && c + n == pb.target && 0 < n <= MAX_SYLLABLE_LEN && Ways(pb, c) > 0
    requires pb.Lookup(c, n).Some? || PartialSpan(pb, c, n)
    ensures Ways(pb, pb.target) + Leaves(pb, pb.target) > 0
  {
    if pb.Lookup(c, n).Some? {
      FrontAtLeast(pb, pb.target, pb.target, c);
    } else {
      LeavesAtLeast(pb, pb.target, c);
    }
  }

  lemma {:induction false} FrontAtLeast(pb: Problem, end: nat, bound: nat, c: nat)
    requires pb.Valid() && c < bound <= end <= pb.target && Step(pb, c, end)
    ensures Front(pb, end, bound) >= Ways(pb, c)
    decreases bound
  {
    if c < bound - 1 { FrontAtLeast(pb, end, bound - 1, c); }
  }

  lemma {:induction false} LeavesAtLeast(pb: Problem, bound: nat, c: nat)
    requires pb.Valid() && c < bound <= pb.target && Leaf(pb, c)
    ensures Leaves(pb, bound) >= Ways(pb, c)
    decreases bound
  {
    hide Ways, Leaf;
    if c < bound - 1 { LeavesAtLeast(pb, bound - 1, c); }
  }

  lemma InitParsed(groups: seq<Problem>)
    requires AllParsed(groups)
    ensures AllValid(groups) && (groups != [] ==> AllParsed(groups[..|groups| - 1]))
  {
  }

  lemma ProductLast(groups: seq<Problem>)
    requires groups != [] && AllParsed(groups)
    ensures AllValid(groups) && AllValid(groups[..|groups| - 1])
    ensures |Product(groups)| >= |Product(groups[..|groups| - 1])|
  {
    hide Combine;
    var last := |groups| - 1;
    CombineSize(Product(groups[..last]), groups[last].AllFrom(0));
    AtLeast(|Product(groups[..last])|, |groups[last].AllFrom(0)|);
  }

  /** Joining more groups never makes the product smaller, so a product over the limit stays over it. */
  lemma {:induction false} ProductGrows(groups: seq<Problem>, n: nat)
    requires AllParsed(groups) && n <= |groups|
    ensures AllValid(groups) && AllValid(groups[..n]) && |Product(groups[..n])| <= |Product(groups)|
    decreases |groups|
  {
    hide Product, AllValid, AllParsed;
    InitParsed(groups);
    if n == |groups| {
      assert groups[..n] == groups;
    } else {
      var init := groups[..|groups| - 1];
      ProductGrows(init, n);
      ProductLast(groups);
      assert init[..n] == groups[..n];
    }
  }

  lemma {:induction false} ProductNotEmpty(groups: seq<Problem>)
    requires AllParsed(groups)
    ensures AllValid(groups) && |Product(groups)| > 0
    decreases |groups|
  {
    hide Combine, AllValid, AllParsed;
    InitParsed(groups);
    if groups != [] {
      ProductNotEmpty(groups[..|groups| - 1]);
      ProductLast(groups);
    }
  }

  lemma AtLeast(n: nat, m: nat)
    requires m > 0
    ensures n * m >= n
  {
  }

  // ---- the loop of the source ----

  lemma {:induction false} PlanIsParsed(tables: Tables, input: string, cursor: nat, separator: nat)
    requires cursor <= |input| && ShortPartials(tables)
    ensures AllParsed(PlanFrom(tables, input, cursor, separator).groups)
    decreases |input| - cursor
  {
    hide GroupProblem, GroupTrouble;
    var end := LettersEnd(input, cursor);
    if end > cursor {
      GroupHasPaths(tables, input[cursor..end], cursor);
      var next := MarksEnd(input, end);
      if next > end { PlanIsParsed(tables, input, next, end); }
    }
  }

  /** Where a parse stands: `done` is joined, the rest of the plan starts at `cursor`. */
  ghost predicate Standing(whole: Plan, done: seq<Problem>, rest: Plan) {
    whole == rest.(groups := done + rest.groups)
  }

  lemma StandingStep(whole: Plan, done: seq<Problem>, pb: Problem, rest: Plan)
    requires Standing(whole, done, Before(pb, rest))
    ensures Standing(whole, done + [pb], rest)
  {
    assert done + ([pb] + rest.groups) == done + [pb] + rest.groups;
  }

  /** The parse ends where the rest of the plan holds no group. */
  lemma StandingEnds(whole: Plan, done: seq<Problem>, rest: Plan)
    requires Standing(whole, done, rest) && rest.groups == [] && AllValid(whole.groups) && AllValid(done)
    requires |Product(done)| <= MAX_PARSE_RESULTS
    ensures InputAnswer(whole) ==
      if rest.trouble.Some? then Stopped(rest.trouble.value) else Parses(Product(done), rest.remainder)
  {
    assert done + [] == done;
  }

  lemma ProductOverLimit(whole: Plan, done: seq<Problem>, rest: Plan)
    requires Standing(whole, done, rest) && AllParsed(whole.groups) && AllValid(whole.groups) && AllValid(done)
    requires |Product(done)| > MAX_PARSE_RESULTS
    ensures InputAnswer(whole) == TooMany
  {
    hide Product;
    assert whole.groups[..|done|] == done;
    ProductGrows(whole.groups, |done|);
  }

  lemma ProductSnoc(groups: seq<Problem>, pb: Problem)
    requires AllValid(groups) && pb.Valid()
    ensures AllValid(groups + [pb]) && Product(groups + [pb]) == Combine(Product(groups), pb.AllFrom(0))
  {
    assert (groups + [pb])[..|groups|] == groups;
  }

  // The next step of the plan at `cursor`, as the loop meets it.

  lemma PlanStops(tables: Tables, input: string, cursor: nat, separator: nat)
    requires cursor <= |input| && LettersEnd(input, cursor) > cursor
    ensures var pb := GroupProblem(tables, input[cursor..LettersEnd(input, cursor)], cursor);
      GroupTrouble(pb).Some? || pb.target == 0 ==>
          PlanFrom(tables, input, cursor, separator) == Plan([], separator, GroupTrouble(pb))
  {
    hide GroupProblem, GroupTrouble, LettersEnd, MarksEnd;
  }

  lemma PlanLast(tables: Tables, input: string, cursor: nat, separator: nat)
    requires cursor <= |input| && LettersEnd(input, cursor) > cursor
    requires var end := LettersEnd(input, cursor); var pb := GroupProblem(tables, input[cursor..end], cursor);
      var next := MarksEnd(input, end);
      && GroupTrouble(pb).None? && pb.target > 0
      && (pb.partials || next == end || next == |input| || !Lower(input[next]))
    ensures var pb := GroupProblem(tables, input[cursor..LettersEnd(input, cursor)], cursor);
      PlanFrom(tables, input, cursor, separator) == Before(pb, Plan([], cursor + pb.target, None))
  {
    hide GroupProblem, GroupTrouble, LettersEnd, MarksEnd;
    var end := LettersEnd(input, cursor);
    WholeTarget(tables, input[cursor..end], cursor);
    var pb := GroupProblem(tables, input[cursor..end], cursor);
    assert [pb] + [] == [pb];
  }

  lemma PlanGoesOn(tables: Tables, input: string, cursor: nat, separator: nat)
    requires cursor <= |input| && LettersEnd(input, cursor) > cursor
    requires var end := LettersEnd(input, cursor); var pb := GroupProblem(tables, input[cursor..end], cursor);
      var next := MarksEnd(input, end);
      && GroupTrouble(pb).None? && pb.target > 0 && !pb.partials && end < next < |input| && Lower(input[next])
    ensures var end := LettersEnd(input, cursor); var pb := GroupProblem(tables, input[cursor..end], cursor);
      PlanFrom(tables, input, cursor, separator) == Before(pb, PlanFrom(tables, input, MarksEnd(input, end), end))
  {
    hide GroupProblem, GroupTrouble, LettersEnd, MarksEnd;
  }

  /** One turn of the loop stands at `cursor`: the groups in `done` are joined, within the limit. */
  ghost predicate Turn(tables: Tables, input: string, plan: Plan, done: seq<Problem>, paths: seq<Path>, cursor: nat,
                       separator: nat) {
    && cursor <= |input| && AllParsed(plan.groups) && AllValid(plan.groups) && AllValid(done)
    && paths == Product(done) && |paths| <= MAX_PARSE_RESULTS
    && Standing(plan, done, PlanFrom(tables, input, cursor, separator))
  }

  lemma TurnIs(tables: Tables, input: string, plan: Plan, done: seq<Problem>, paths: seq<Path>, cursor: nat,
               separator: nat)
    requires cursor <= |input|
    ensures Turn(tables, input, plan, done, paths, cursor, separator) <==>
      && AllParsed(plan.groups) && AllValid(plan.groups) && AllValid(done)
      && paths == Product(done) && |paths| <= MAX_PARSE_RESULTS
      && Standing(plan, done, PlanFrom(tables, input, cursor, separator))
  {
    hide AllParsed, AllValid, Product, Standing, PlanFrom;
  }

  /** Joins the paths of a group that consumed something. */
  method JoinGroup(ghost plan: Plan, ghost done: seq<Problem>, ghost pb: Problem, ghost rest: Plan, left: seq<Path>,
                   right: seq<Path>)
    returns (r: Option<seq<Path>>)
    requires AllParsed(plan.groups) && AllValid(plan.groups) && AllValid(done) && pb.Valid()
    requires left == Product(done) && right == pb.AllFrom(0) && Standing(plan, done, Before(pb, rest))
    ensures AllValid(done + [pb]) && Standing(plan, done + [pb], rest)
    ensures r.None? ==> InputAnswer(plan) == TooMany
    ensures r.Some? ==> r.value == Product(done + [pb]) && |r.value| <= MAX_PARSE_RESULTS
  {
    hide Product, InputAnswer, Standing, AllParsed, AllValid, Combine;
    StandingStep(plan, done, pb, rest);
    ProductSnoc(done, pb);
    r := CombinePaths(left, right);
    if r.None? { ProductOverLimit(plan, done + [pb], rest); }
  }

  /** A group that consumes something without trouble, as the group parser answers it. */
  ghost predicate Answered(tables: Tables, input: string, cursor: nat, group: GroupResult)
    requires cursor <= |input|
  {
    var pb := GroupProblem(tables, input[cursor..LettersEnd(input, cursor)], cursor);
    && LettersEnd(input, cursor) > cursor && GroupTrouble(pb).None? && pb.target > 0
    && group == Parsed(pb.AllFrom(0), pb.target, !pb.partials)
  }

  /** Parses the group at `cursor`, unless the parse ends before it. */
  method ReadGroup(tables: Tables, input: string, ghost plan: Plan, ghost done: seq<Problem>, paths: seq<Path>,
                   cursor: nat, separator: nat)
    returns (answer: Option<InputResult>, group: GroupResult)
    requires ShortPartials(tables) && cursor <= |input| && Turn(tables, input, plan, done, paths, cursor, separator)
    ensures answer.Some? ==> answer.value == InputAnswer(plan)
    ensures answer.None? ==> Answered(tables, input, cursor, group)
  {
    hide *;
    TurnIs(tables, input, plan, done, paths, cursor, separator);
    group := TooManyAlternatives;
    var end := LettersEnd(input, cursor);
    if end == cursor {
      PlanEnds(tables, input, cursor, separator);
      EndsWith(plan, done, separator, None);
      return Some(Parses(paths, separator)), group;
    }
    ghost var pb := GroupProblem(tables, input[cursor..end], cursor);
    AnswerOf(tables, input[cursor..end], cursor);
    group := ParseGroup(tables, input[cursor..end], cursor);
    if !group.Parsed? {
      PlanStops(tables, input, cursor, separator);
      EndsWith(plan, done, separator, Some(group));
      return Some(if group == CountMismatch then Mismatch else TooMany), group;
    }
    if group.consumed == 0 {
      PlanStops(tables, input, cursor, separator);
      EndsWith(plan, done, separator, None);
      return Some(Parses(paths, separator)), group;
    }
    AnsweredIs(tables, input, cursor, group);
    return None, group;
  }

  lemma AnsweredIs(tables: Tables, input: string, cursor: nat, group: GroupResult)
    requires cursor <= |input|
    ensures var end := LettersEnd(input, cursor); var pb := GroupProblem(tables, input[cursor..end], cursor);
      Answered(tables, input, cursor, group) <==>
        end > cursor && GroupTrouble(pb).None? && pb.target > 0
            && group == Parsed(pb.AllFrom(0), pb.target, !pb.partials)
  {
    hide GroupProblem, GroupTrouble, LettersEnd;
  }

  lemma EndsWith(plan: Plan, done: seq<Problem>, remainder: nat, trouble: Option<GroupResult>)
    requires AllValid(plan.groups) && AllValid(done) && |Product(done)| <= MAX_PARSE_RESULTS
    requires Standing(plan, done, Plan([], remainder, trouble))
    ensures InputAnswer(plan) == match trouble
      case Some(t) => if t == CountMismatch then Mismatch else TooMany
      case None => Parses(Product(done), remainder)
  {
    hide Product, AllValid, InputAnswer, Standing;
    StandingEnds(plan, done, Plan([], remainder, trouble));
  }

  /** One group: the answer, if the parse ends with it, or the next turn. */
  method ParseNext(tables: Tables, input: string, ghost plan: Plan, ghost done: seq<Problem>, paths: seq<Path>,
                   cursor: nat, separator: nat)
    returns (answer: Option<InputResult>, joined: seq<Path>, next: nat, nextSeparator: nat,
        ghost nextDone: seq<Problem>)
    requires ShortPartials(tables) && cursor <= |input| && Turn(tables, input, plan, done, paths, cursor, separator)
    ensures answer.Some? ==> answer.value == InputAnswer(plan)
    ensures answer.None? ==>
      cursor < next <= |input| && Turn(tables, input, plan, nextDone, joined, next, nextSeparator)
  {
    hide *;
    joined, next, nextSeparator, nextDone := paths, cursor, separator, done;
    var group;
    answer, group := ReadGroup(tables, input, plan, done, paths, cursor, separator);
    if answer.Some? { return; }
    TurnIs(tables, input, plan, done, paths, cursor, separator);
    AnsweredIs(tables, input, cursor, group);
    var end := LettersEnd(input, cursor);
    next := SkipMarks(input, end);
    var goesOn := group.complete && next > end && next < |input| && Lower(input[next]);
    ghost var pb := GroupProblem(tables, input[cursor..end], cursor);
    ghost var rest := if goesOn then PlanFrom(tables, input, next, end) else Plan([], cursor + group.consumed, None);
    if goesOn { PlanGoesOn(tables, input, cursor, separator); } else { PlanLast(tables, input, cursor, separator); }
    nextDone, nextSeparator := done + [pb], end;
    var combined := JoinGroup(plan, done, pb, rest, paths, group.paths);
    if combined.None? {
      answer := Some(TooMany);
    } else {
      joined := combined.value;
      if goesOn {
        TurnIs(tables, input, plan, nextDone, joined, next, nextSeparator);
      } else {
        EndsWith(plan, nextDone, cursor + group.consumed, None);
        answer := Some(Parses(joined, cursor + group.consumed));
      }
    }
  }

  method ParseInput(tables: Tables, input: string) returns (r: InputResult)
    requires ShortPartials(tables)
    ensures AllValid(Planned(tables, input).groups) && r == InputAnswer(Planned(tables, input))
  {
    hide PlanFrom, Product, InputAnswer, Standing, AllParsed;
    ghost var plan := Planned(tables, input);
    var cursor := SkipMarks(input, 0);
    PlanIsParsed(tables, input, cursor, 0);
    NothingPlanned();
    ParsedIsValid(plan.groups);
    var accumulated: seq<Path> := [[]];
    EmptyProduct();
    if cursor > 0 && (cursor == |input| || !Lower(input[cursor])) {
      StandsAtStart(plan, Plan([], 0, None));
      StandingEnds(plan, [], Plan([], 0, None));
      return Parses(accumulated, 0);
    }
    var separator := 0;
    ghost var done: seq<Problem> := [];
    StandsAtStart(plan, PlanFrom(tables, input, cursor, separator));
    while true
      invariant cursor <= |input| && Turn(tables, input, plan, done, accumulated, cursor, separator)
      decreases |input| - cursor
    {
      hide Turn;
      var answer, joined, next, nextSeparator,
          nextDone := ParseNext(tables, input, plan, done, accumulated, cursor, separator);
      if answer.Some? { return answer.value; }
      accumulated, cursor, separator, done := joined, next, nextSeparator, nextDone;
    }
  }

  lemma NothingPlanned()
    ensures AllParsed([])
  {
  }

  lemma ParsedIsValid(groups: seq<Problem>)
    requires AllParsed(groups)
    ensures AllValid(groups)
  {
  }

  lemma EmptyProduct()
    ensures AllValid([]) && Product([]) == [[]]
  {
  }

  lemma StandsAtStart(whole: Plan, rest: Plan)
    requires whole == rest
    ensures Standing(whole, [], rest)
  {
    assert [] + rest.groups == rest.groups;
  }

  lemma PlanEnds(tables: Tables, input: string, cursor: nat, separator: nat)
    requires cursor <= |input| && LettersEnd(input, cursor) == cursor
    ensures PlanFrom(tables, input, cursor, separator) == Plan([], separator, None)
  {
  }

  lemma AnswerOf(tables: Tables, group: string, offset: nat)
    ensures var pb := GroupProblem(tables, group, offset);
      GroupAnswer(tables, group, offset) ==
        if GroupTrouble(pb).Some? then GroupTrouble(pb).value else Parsed(pb.AllFrom(0), pb.target, !pb.partials)
  {
  }

  // ---- the joined paths: order and contents ----

  lemma {:induction false} CombineMember(left: seq<Path>, right: seq<Path>, p: Path)
    ensures p in Combine(left, right) <==> exists l, r :: l in left && r in right && p == l + r
    decreases |left|
  {
    if left != [] {
      var init, last := left[..|left| - 1], left[|left| - 1];
      CombineMember(init, right, p);
      PrefixedHolds(last, right, p);
      assert left == init + [last];
    }
  }

  lemma PrefixedHolds(l: Path, right: seq<Path>, p: Path)
    ensures p in Prefixed(l, right) <==> exists r :: r in right && p == l + r
  {
    if p in Prefixed(l, right) {
      var i :| 0 <= i < |right| && Prefixed(l, right)[i] == p;
      assert right[i] in right;
    }
    if r :| r in right && p == l + r {
      var i :| 0 <= i < |right| && right[i] == r;
      assert Prefixed(l, right)[i] == p;
    }
  }

  /** Different left paths part before their end, so whatever follows does not matter. */
  lemma GreedierThen(p: Path, q: Path, r: Path, s: Path)
    requires Greedier(p, q)
    ensures Greedier(p + r, q + s)
  {
    var k: nat :| k < |p| && k < |q| && p[..k] == q[..k] && p[k].end > q[k].end;
    assert (p + r)[..k] == p[..k] && (q + s)[..k] == q[..k];
  }

  lemma GreedierAfter(p: Path, q: Path, r: Path)
    requires Greedier(q, r)
    ensures Greedier(p + q, p + r)
  {
    var k: nat :| k < |q| && k < |r| && q[..k] == r[..k] && q[k].end > r[k].end;
    assert (p + q)[..|p| + k] == p + q[..k] && (p + r)[..|p| + k] == p + r[..k];
    assert (p + q)[|p| + k] == q[k] && (p + r)[|p| + k] == r[k];
  }

  lemma PrefixedStaysInOrder(l: Path, right: seq<Path>)
    requires InOrder(right)
    ensures InOrder(Prefixed(l, right))
  {
    hide Greedier;
    forall i, j | 0 <= i < j < |right|
      ensures Greedier(Prefixed(l, right)[i], Prefixed(l, right)[j])
    {
      GreedierAfter(l, right[i], right[j]);
    }
  }

  /** The product of ordered path sets is ordered. */
  lemma {:induction false} CombineInOrder(left: seq<Path>, right: seq<Path>)
    requires InOrder(left) && InOrder(right)
    ensures InOrder(Combine(left, right))
    decreases |left|
  {
    hide Greedier;
    if left != [] {
      var init, last := left[..|left| - 1], left[|left| - 1];
      CombineInOrder(init, right);
      PrefixedStaysInOrder(last, right);
      forall p, q | p in Combine(init, right) && q in Prefixed(last, right)
        ensures Greedier(p, q)
      {
        CombineMember(init, right, p);
        PrefixedHolds(last, right, q);
        var l, r :| l in init && r in right && p == l + r;
        var s :| s in right && q == last + s;
        var i :| 0 <= i < |init| && init[i] == l;
        assert Greedier(left[i], left[|left| - 1]);
        GreedierThen(l, last, r, s);
      }
      hide InOrder, Combine;
      AppendInOrder(Combine(init, right), Prefixed(last, right));
    }
  }

  /** A path that covers each group in turn. */
  ghost predicate CoversAll(groups: seq<Problem>, path: Path)
    requires AllValid(groups)
    decreases |groups|
  {
    if groups == [] then path == []
    else
      var last := |groups| - 1;
      exists l, r :: CoversAll(groups[..last], l) && Covers(groups[last], r, 0) && path == l + r
  }

  lemma {:induction false} ProductIsExact(groups: seq<Problem>)
    requires AllValid(groups)
    ensures InOrder(Product(groups))
    ensures forall path :: path in Product(groups) <==> CoversAll(groups, path)
    decreases |groups|
  {
    hide Covers, Greedier;
    if groups != [] {
      var last := |groups| - 1;
      ProductIsExact(groups[..last]);
      EachCoverOnce(groups[last]);
      hide InOrder, Combine;
      CombineInOrder(Product(groups[..last]), groups[last].AllFrom(0));
      forall path
        ensures path in Product(groups) <==> CoversAll(groups, path)
      {
        CombineMember(Product(groups[..last]), groups[last].AllFrom(0), path);
      }
    }
  }

  // ---- what the groups and the remainder are ----

  /** The groups lie in the input one after another from `end` on, with apostrophes alone between them; each but the
      last is consumed whole; the remainder starts where the last one stops. */
  ghost predicate Lies(tables: Tables, input: string, groups: seq<Problem>, end: nat, remainder: nat)
    decreases |groups|
  {
    if groups == [] then remainder == end
    else
      var pb := groups[0];
      && end <= pb.offset && pb.offset + |pb.group| <= |input|
      && (forall i :: end <= i < pb.offset ==> input[i] == MARK)
      && pb.group == input[pb.offset..pb.offset + |pb.group|]
      && (forall i :: 0 <= i < |pb.group| ==> Lower(pb.group[i]))
      && (pb.offset + |pb.group| < |input| ==> !Lower(input[pb.offset + |pb.group|]))
      && 0 < pb.target <= |pb.group| && pb == GroupProblem(tables, pb.group, pb.offset) && GroupTrouble(pb).None?
      && (|groups| > 1 ==> !pb.partials && pb.target == |pb.group|)
      && Lies(tables, input, groups[1..], pb.offset + pb.target, remainder)
  }

  lemma OneLies(tables: Tables, input: string, pb: Problem, end: nat, rest: seq<Problem>, remainder: nat)
    requires end <= pb.offset && pb.offset + |pb.group| <= |input|
      && (forall i :: end <= i < pb.offset ==> input[i] == MARK)
    requires pb.group == input[pb.offset..pb.offset + |pb.group|] && pb == GroupProblem(tables, pb.group, pb.offset)
    requires GroupTrouble(pb).None?
    requires forall i :: 0 <= i < |pb.group| ==> Lower(pb.group[i])
    requires pb.offset + |pb.group| < |input| ==> !Lower(input[pb.offset + |pb.group|])
    requires 0 < pb.target <= |pb.group| && (rest != [] ==> !pb.partials && pb.target == |pb.group|)
    requires Lies(tables, input, rest, pb.offset + pb.target, remainder)
    ensures Lies(tables, input, [pb] + rest, end, remainder)
  {
    assert ([pb] + rest)[1..] == rest;
  }

  lemma WholeTarget(tables: Tables, group: string, offset: nat)
    ensures var pb := GroupProblem(tables, group, offset);
      pb.target <= |group| && (!pb.partials ==> pb.target == |group|)
  {
    hide FallbackEnd;
  }

  /** The letters from `cursor` on, as a group. */
  lemma LetterGroup(input: string, cursor: nat)
    requires cursor <= |input|
    ensures var end := LettersEnd(input, cursor); var group := input[cursor..end];
      && cursor + |group| == end && (forall i :: 0 <= i < |group| ==> Lower(group[i]))
      && (end < |input| ==> !Lower(input[end]))
  {
  }

  lemma {:induction false} PlanLies(tables: Tables, input: string, cursor: nat, separator: nat)
    requires separator <= cursor <= |input| && forall i :: separator <= i < cursor ==> input[i] == MARK
    ensures var plan := PlanFrom(tables, input, cursor, separator);
      Lies(tables, input, plan.groups, separator, plan.remainder)
    decreases |input| - cursor
  {
    hide *;
    NoneLie(tables, input, separator);
    var end := LettersEnd(input, cursor);
    if end == cursor {
      PlanEnds(tables, input, cursor, separator);
    } else {
      var pb, next := GroupProblem(tables, input[cursor..end], cursor), MarksEnd(input, end);
      if GroupTrouble(pb).Some? || pb.target == 0 {
        PlanStops(tables, input, cursor, separator);
      } else if pb.partials || next == end || next == |input| || !Lower(input[next]) {
        PlanLast(tables, input, cursor, separator);
        NoneLie(tables, input, cursor + pb.target);
        GroupLies(tables, input, cursor, separator, Plan([], cursor + pb.target, None));
      } else {
        PlanGoesOn(tables, input, cursor, separator);
        MarksBetween(input, end);
        PlanLies(tables, input, next, end);
        WholeTarget(tables, input[cursor..end], cursor);
        GroupLies(tables, input, cursor, separator, PlanFrom(tables, input, next, end));
      }
    }
  }

  lemma NoneLie(tables: Tables, input: string, end: nat)
    ensures Lies(tables, input, [], end, end)
  {
  }

  lemma MarksBetween(input: string, end: nat)
    requires end <= |input|
    ensures forall i :: end <= i < MarksEnd(input, end) ==> input[i] == MARK
  {
  }

  lemma GroupLies(tables: Tables, input: string, cursor: nat, separator: nat, rest: Plan)
    requires separator <= cursor <= |input| && forall i :: separator <= i < cursor ==> input[i] == MARK
    requires var pb := GroupProblem(tables, input[cursor..LettersEnd(input, cursor)], cursor);
      pb.target > 0 && GroupTrouble(pb).None? && (rest.groups != [] ==> !pb.partials)
          && Lies(tables, input, rest.groups, cursor + pb.target, rest.remainder)
    ensures var plan := Before(GroupProblem(tables, input[cursor..LettersEnd(input, cursor)], cursor), rest);
      Lies(tables, input, plan.groups, separator, plan.remainder)
  {
    hide GroupProblem, Lies, Lower, LettersEnd;
    LetterGroup(input, cursor);
    var group := input[cursor..LettersEnd(input, cursor)];
    WholeTarget(tables, group, cursor);
    OneLies(tables, input, GroupProblem(tables, group, cursor), separator, rest.groups, rest.remainder);
  }

  /** The consumed part never ends in an apostrophe, and holds letters and apostrophes alone. */
  lemma {:induction false} RemainderFollowsALetter(tables: Tables, input: string, groups: seq<Problem>, end: nat,
                                                   remainder: nat)
    requires Lies(tables, input, groups, end, remainder) && end <= |input|
    ensures end <= remainder <= |input|
    ensures remainder == end || Lower(input[remainder - 1])
    ensures forall i :: end <= i < remainder ==> Lower(input[i]) || input[i] == MARK
    decreases |groups|
  {
    hide GroupProblem;
    if groups != [] {
      var pb := groups[0];
      RemainderFollowsALetter(tables, input, groups[1..], pb.offset + pb.target, remainder);
      assert forall i :: pb.offset <= i < pb.offset + pb.target ==> input[i] == pb.group[i - pb.offset];
    }
  }

  lemma PlannedLies(tables: Tables, input: string)
    ensures var plan := Planned(tables, input); Lies(tables, input, plan.groups, 0, plan.remainder)
  {
    hide PlanFrom;
    PlanLies(tables, input, MarksEnd(input, 0), 0);
  }

  /** What an answered parse holds: the groups of the input laid out one after another, exactly the paths that cover
      each of them, in the frozen order, none twice, at least one and at most the limit; and a remainder that starts
      right after a consumed letter, so that an apostrophe is consumed only with something after it. */
  lemma ParsedInput(tables: Tables, input: string)
    requires ShortPartials(tables) && AllValid(Planned(tables, input).groups)
      && InputAnswer(Planned(tables, input)).Parses?
    ensures var plan := Planned(tables, input); var r := InputAnswer(plan);
      && Lies(tables, input, plan.groups, 0, r.remainder)
      && 0 < |r.paths| <= MAX_PARSE_RESULTS
      && InOrder(r.paths) && |set p | p in r.paths| == |r.paths|
      && (forall path :: path in r.paths <==> CoversAll(plan.groups, path))
      && r.remainder <= |input| && (r.remainder == 0 || Lower(input[r.remainder - 1]))
      && (forall i :: 0 <= i < r.remainder ==> Lower(input[i]) || input[i] == MARK)
  {
    hide Product, Planned, Lies, CoversAll, InOrder, AllValid, AllParsed;
    var plan := Planned(tables, input);
    PlannedLies(tables, input);
    RemainderFollowsALetter(tables, input, plan.groups, 0, plan.remainder);
    ProductIsExact(plan.groups);
    OrderedIsDistinct(Product(plan.groups));
    PlannedIsParsed(tables, input);
    ProductNotEmpty(plan.groups);
  }

  lemma PlannedIsParsed(tables: Tables, input: string)
    requires ShortPartials(tables)
    ensures AllParsed(Planned(tables, input).groups)
  {
    hide PlanFrom;
    PlanIsParsed(tables, input, MarksEnd(input, 0), 0);
  }

  // ---- the parse goes on as long as it can ----

  /** From `from` on stand apostrophes up to `start`, and letters up to `end`; neither run goes on. */
  ghost predicate NextRun(input: string, from: nat, start: nat, end: nat) {
    && from <= start <= end <= |input|
    && (forall i :: from <= i < start ==> input[i] == '\'') && (start < |input| ==> input[start] != '\'')
    && (forall i :: start <= i < end ==> 'a' <= input[i] <= 'z')
    && (end < |input| ==> !('a' <= input[end] <= 'z'))
  }

  /** The next run of letters holds no more of the parse: there is none, or it is answered with trouble, or it consumes
      nothing. */
  ghost predicate RunStops(tables: Tables, input: string, start: nat, end: nat, trouble: Option<GroupResult>)
    requires start <= end <= |input|
  {
    if start == end then trouble == None
    else
      var answer := GroupAnswer(tables, input[start..end], start);
      if !answer.Parsed? then trouble == Some(answer) else answer.consumed == 0 && trouble == None
  }

  /** After groups that end at `from`, in the middle of the input: a group that no apostrophe follows is the last. */
  ghost predicate Stops(tables: Tables, input: string, from: nat, trouble: Option<GroupResult>) {
    exists start, end :: NextRun(input, from, start, end)
      && ((start == from && trouble == None) || RunStops(tables, input, start, end, trouble))
  }

  /** Why a list of groups is not longer. */
  ghost predicate Maximal(tables: Tables, input: string, groups: seq<Problem>, trouble: Option<GroupResult>) {
    if groups == [] then
      exists start, end :: NextRun(input, 0, start, end) && RunStops(tables, input, start, end, trouble)
    else
      var last := groups[|groups| - 1];
      (last.partials && trouble == None)
          || (!last.partials && Stops(tables, input, last.offset + |last.group|, trouble))
  }

  /** The groups that `PlanFrom` adds after a run start at `cursor`. */
  ghost predicate GoesOn(tables: Tables, input: string, plan: Plan, cursor: nat, end: nat)
    requires cursor <= end <= |input|
  {
    if plan.groups == [] then RunStops(tables, input, cursor, end, plan.trouble)
    else
      var last := plan.groups[|plan.groups| - 1];
      || (last.partials && plan.trouble == None)
      || (!last.partials && Stops(tables, input, last.offset + |last.group|, plan.trouble))
  }

  lemma LettersAre(input: string, cursor: nat)
    requires cursor <= |input| && (cursor < |input| ==> input[cursor] != '\'')
    ensures NextRun(input, cursor, cursor, LettersEnd(input, cursor))
  {
  }

  lemma MarksAre(input: string, from: nat)
    requires from <= |input|
    ensures NextRun(input, from, MarksEnd(input, from), LettersEnd(input, MarksEnd(input, from)))
  {
  }

  lemma StopsAfter(tables: Tables, input: string, end: nat)
    requires end <= |input|
    requires var next := MarksEnd(input, end); next == end || next == |input| || !Lower(input[next])
    ensures Stops(tables, input, end, None)
  {
    var next := MarksEnd(input, end);
    MarksAre(input, end);
    assert NextRun(input, end, next, LettersEnd(input, next));
  }

  lemma {:induction false} PlanGoesAsFarAsItCan(tables: Tables, input: string, cursor: nat, separator: nat)
    requires cursor <= |input| && (cursor < |input| ==> input[cursor] != '\'')
    ensures GoesOn(tables, input, PlanFrom(tables, input, cursor, separator), cursor, LettersEnd(input, cursor))
    decreases |input| - cursor
  {
    hide PlanFrom, GroupProblem, GroupTrouble, GroupAnswer, Stops, LettersEnd, MarksEnd, Lower;
    var end := LettersEnd(input, cursor);
    if end == cursor {
      PlanEnds(tables, input, cursor, separator);
    } else {
      var pb, next := GroupProblem(tables, input[cursor..end], cursor), MarksEnd(input, end);
      AnswerOf(tables, input[cursor..end], cursor);
      if GroupTrouble(pb).Some? || pb.target == 0 {
        PlanStops(tables, input, cursor, separator);
      } else if pb.partials || next == end || next == |input| || !Lower(input[next]) {
        PlanLast(tables, input, cursor, separator);
        if !pb.partials { StopsAfter(tables, input, end); }
      } else {
        PlanGoesOn(tables, input, cursor, separator);
        MarksEndThere(input, end);
        PlanGoesAsFarAsItCan(tables, input, next, end);
        var rest := PlanFrom(tables, input, next, end);
        if rest.groups == [] { RunStopsAfter(tables, input, end, next, rest.trouble); }
      }
    }
  }

  lemma MarksEndThere(input: string, from: nat)
    requires from <= |input|
    ensures MarksEnd(input, from) < |input| ==> input[MarksEnd(input, from)] != '\''
  {
  }

  lemma RunStopsAfter(tables: Tables, input: string, from: nat, next: nat, trouble: Option<GroupResult>)
    requires from <= |input| && next == MarksEnd(input, from)
    requires RunStops(tables, input, next, LettersEnd(input, next), trouble)
    ensures Stops(tables, input, from, trouble)
  {
    hide RunStops;
    MarksAre(input, from);
  }

  /** The plan stops only where it must: without a group, the input has no letters after its apostrophes or its first
      letters are answered with trouble or consume nothing; after the last group, that group is a fallback, or no
      apostrophe with letters follows, or those letters are answered with trouble or consume nothing. */
  lemma PlannedIsMaximal(tables: Tables, input: string)
    ensures Maximal(tables, input, Planned(tables, input).groups, Planned(tables, input).trouble)
  {
    hide PlanFrom, RunStops, Stops;
    var start := MarksEnd(input, 0);
    MarksAre(input, 0);
    if start > 0 && (start == |input| || !Lower(input[start])) {
      NoLetters(tables, input, start);
    } else {
      PlanGoesAsFarAsItCan(tables, input, start, 0);
      var plan := PlanFrom(tables, input, start, 0);
      if plan.groups == [] { assert RunStops(tables, input, start, LettersEnd(input, start), plan.trouble); }
    }
  }

  lemma NoLetters(tables: Tables, input: string, start: nat)
    requires start <= |input| && (start == |input| || !Lower(input[start]))
    ensures LettersEnd(input, start) == start && RunStops(tables, input, start, start, None)
  {
  }

  // ---- and that determines it ----

  /** Where the next run stands is determined by the input. */
  lemma NextRunIs(input: string, from: nat, start: nat, end: nat)
    requires NextRun(input, from, start, end)
    ensures start == MarksEnd(input, from) && end == LettersEnd(input, start)
  {
    MarksAre(input, from);
    SameMarks(input, from, start, MarksEnd(input, from));
    SameLetters(input, start, end, LettersEnd(input, start));
  }

  lemma SameMarks(input: string, from: nat, a: nat, b: nat)
    requires from <= a <= |input| && from <= b <= |input|
    requires (forall i :: from <= i < a ==> input[i] == '\'') && (forall i :: from <= i < b ==> input[i] == '\'')
    requires (a < |input| ==> input[a] != '\'') && (b < |input| ==> input[b] != '\'')
    ensures a == b
  {
    var atA, atB := (if a < |input| then input[a] else 'x'), if b < |input| then input[b] else 'x';
  }

  lemma SameLetters(input: string, from: nat, a: nat, b: nat)
    requires from <= a <= |input| && from <= b <= |input|
    requires forall i :: from <= i < a ==> 'a' <= input[i] <= 'z'
    requires forall i :: from <= i < b ==> 'a' <= input[i] <= 'z'
    requires a < |input| ==> !('a' <= input[a] <= 'z')
    requires b < |input| ==> !('a' <= input[b] <= 'z')
    ensures a == b
  {
    var atA, atB := (if a < |input| then input[a] else '0'), if b < |input| then input[b] else '0';
  }

  /** Why no group follows: after the last one, or at the start of the input. */
  ghost predicate NoMore(tables: Tables, input: string, last: Option<Problem>, trouble: Option<GroupResult>) {
    match last
    case None => exists start, end :: NextRun(input, 0, start, end) && RunStops(tables, input, start, end, trouble)
    case Some(pb) =>
      (pb.partials && trouble == None) || (!pb.partials && Stops(tables, input, pb.offset + |pb.group|, trouble))
  }

  /** What a plan still has to lay out after `last`, which ends at `end`. */
  ghost predicate Follows(tables: Tables, input: string, last: Option<Problem>, end: nat) {
    && end <= |input|
    && match last
       case None => end == 0
       case Some(pb) =>
         !pb.partials ==> end == pb.offset + |pb.group| && (end < |input| ==> !('a' <= input[end] <= 'z'))
  }

  ghost function LastOf(last: Option<Problem>, groups: seq<Problem>): (r: Option<Problem>) {
    if groups == [] then last else Some(groups[|groups| - 1])
  }

  /** Where no more groups follow, the next letters hold none, and the trouble is theirs. */
  lemma NoMoreIs(tables: Tables, input: string, last: Option<Problem>, end: nat, trouble: Option<GroupResult>)
    requires Follows(tables, input, last, end) && NoMore(tables, input, last, trouble)
    ensures last.Some? && last.value.partials ==> trouble == None
    ensures last.None? || !last.value.partials ==>
      var start := MarksEnd(input, end); RunStops(tables, input, start, LettersEnd(input, start), trouble)
  {
    hide RunStops;
    if last.None? {
      var start, stop :| NextRun(input, 0, start, stop) && RunStops(tables, input, start, stop, trouble);
      NextRunIs(input, 0, start, stop);
    } else if !last.value.partials {
      var start, stop :| NextRun(input, end, start, stop)
        && ((start == end && trouble == None) || RunStops(tables, input, start, stop, trouble));
      NextRunIs(input, end, start, stop);
      if start == end { NoLetters(tables, input, start); }
    }
  }

  /** The first group that lies after `end` is the next run of letters. */
  lemma FirstGroupIs(tables: Tables, input: string, groups: seq<Problem>, end: nat, remainder: nat)
    requires groups != [] && Lies(tables, input, groups, end, remainder)
    ensures var start := MarksEnd(input, end); var stop := LettersEnd(input, start); var pb := groups[0];
      && start < stop && pb == GroupProblem(tables, input[start..stop], start)
      && GroupTrouble(pb).None? && 0 < pb.target
      && (pb.offset + |pb.group| < |input| ==> !('a' <= input[pb.offset + |pb.group|] <= 'z'))
  {
    hide GroupProblem, GroupTrouble;
    var pb := groups[0];
    var stop := pb.offset + |pb.group|;
    assert input[pb.offset] == pb.group[0];
    forall i | pb.offset <= i < stop
      ensures 'a' <= input[i] <= 'z'
    {
      assert input[i] == pb.group[i - pb.offset];
    }
    assert NextRun(input, end, pb.offset, stop);
    NextRunIs(input, end, pb.offset, stop);
  }

  /** Letters that hold no more of the parse hold no group. */
  lemma StoppedRunHasNoGroup(tables: Tables, input: string, start: nat, trouble: Option<GroupResult>)
    requires start <= |input| && LettersEnd(input, start) > start
    requires RunStops(tables, input, start, LettersEnd(input, start), trouble)
    ensures var pb := GroupProblem(tables, input[start..LettersEnd(input, start)], start);
      GroupTrouble(pb).Some? || pb.target == 0
  {
    hide GroupProblem, GroupTrouble, GroupAnswer, LettersEnd;
    AnswerOf(tables, input[start..LettersEnd(input, start)], start);
  }

  /** After a fallback nothing follows. */
  ghost predicate MayFollow(last: Option<Problem>, groups: seq<Problem>) {
    last.Some? && last.value.partials ==> groups == []
  }

  lemma SameEnd(tables: Tables, input: string, last: Option<Problem>, end: nat, groups: seq<Problem>, remainder: nat,
                trouble: Option<GroupResult>, stopped: Option<GroupResult>)
    requires Follows(tables, input, last, end) && MayFollow(last, groups)
    requires NoMore(tables, input, last, stopped)
    requires Lies(tables, input, groups, end, remainder) && NoMore(tables, input, LastOf(last, groups), trouble)
    ensures groups == [] && trouble == stopped
  {
    hide GroupProblem, GroupTrouble, Lies, RunStops, NoMore, Follows;
    NoMoreIs(tables, input, last, end, stopped);
    if groups == [] {
      NoMoreIs(tables, input, last, end, trouble);
      if last.None? || !last.value.partials { SameTrouble(tables, input, MarksEnd(input, end), trouble, stopped); }
    } else {
      FirstGroupIs(tables, input, groups, end, remainder);
      StoppedRunHasNoGroup(tables, input, MarksEnd(input, end), stopped);
      assert false;
    }
  }

  lemma SameTrouble(tables: Tables, input: string, start: nat, trouble: Option<GroupResult>,
                    stopped: Option<GroupResult>)
    requires start <= |input|
    requires RunStops(tables, input, start, LettersEnd(input, start), trouble)
    requires RunStops(tables, input, start, LettersEnd(input, start), stopped)
    ensures trouble == stopped
  {
    hide GroupAnswer, LettersEnd;
  }

  lemma NoGroupLies(tables: Tables, input: string, end: nat, remainder: nat)
    ensures Lies(tables, input, [], end, remainder) <==> remainder == end
  {
  }

  lemma RestLies(tables: Tables, input: string, groups: seq<Problem>, end: nat, remainder: nat)
    requires groups != [] && Lies(tables, input, groups, end, remainder)
    ensures var pb := groups[0];
      && Lies(tables, input, groups[1..], pb.offset + pb.target, remainder)
      && MayFollow(Some(pb), groups[1..]) && Follows(tables, input, Some(pb), pb.offset + pb.target)
  {
    hide GroupProblem, GroupTrouble;
    WholeTarget(tables, groups[0].group, groups[0].offset);
  }

  /** Two maximal lists of groups that lie in the input after the same end are the same list. */
  lemma {:induction false} SamePlan(tables: Tables, input: string, last: Option<Problem>, end: nat,
                                    groups: seq<Problem>, remainder: nat, trouble: Option<GroupResult>,
                                    groups': seq<Problem>, remainder': nat, trouble': Option<GroupResult>)
    requires Follows(tables, input, last, end) && MayFollow(last, groups) && MayFollow(last, groups')
    requires Lies(tables, input, groups, end, remainder) && NoMore(tables, input, LastOf(last, groups), trouble)
    requires Lies(tables, input, groups', end, remainder') && NoMore(tables, input, LastOf(last, groups'), trouble')
    ensures groups == groups' && remainder == remainder' && trouble == trouble'
    decreases |groups|
  {
    hide GroupProblem, GroupTrouble, NoMore, Lies, Follows, MayFollow;
    NoGroupLies(tables, input, end, remainder);
    NoGroupLies(tables, input, end, remainder');
    if groups == [] {
      SameEnd(tables, input, last, end, groups', remainder', trouble', trouble);
    } else if groups' == [] {
      SameEnd(tables, input, last, end, groups, remainder, trouble, trouble');
    } else {
      FirstGroupIs(tables, input, groups, end, remainder);
      FirstGroupIs(tables, input, groups', end, remainder');
      RestLies(tables, input, groups, end, remainder);
      RestLies(tables, input, groups', end, remainder');
      var pb := groups[0];
      assert groups == [pb] + groups[1..] && groups' == [pb] + groups'[1..];
      SamePlan(tables, input, Some(pb), pb.offset + pb.target, groups[1..], remainder, trouble,
               groups'[1..], remainder', trouble');
    }
  }

  /** The groups that lie in the input and are maximal, with the trouble that stops them, are the plan; so they and the
      group parser's answers determine every outcome of the parse. */
  lemma AnswerIsDetermined(tables: Tables, input: string, groups: seq<Problem>, remainder: nat,
                           trouble: Option<GroupResult>)
    requires Lies(tables, input, groups, 0, remainder) && Maximal(tables, input, groups, trouble)
    ensures Planned(tables, input) == Plan(groups, remainder, trouble)
  {
    hide Lies, Planned, RunStops, Stops;
    var plan := Planned(tables, input);
    PlannedLies(tables, input);
    PlannedIsMaximal(tables, input);
    SamePlan(tables, input, None, 0, groups, remainder, trouble, plan.groups, plan.remainder, plan.trouble);
  }

  /** Each outcome under its own condition, from the groups that lie in the input, what stops them, and the paths that
      cover each of them in turn. */
  lemma OutcomeFollows(tables: Tables, input: string, groups: seq<Problem>, remainder: nat,
                       trouble: Option<GroupResult>, covers: seq<Path>)
    requires ShortPartials(tables) && Lies(tables, input, groups, 0, remainder)
      && Maximal(tables, input, groups, trouble)
    requires AllValid(groups) && InOrder(covers) && forall path :: path in covers <==> CoversAll(groups, path)
    ensures var plan := Planned(tables, input); AllValid(plan.groups) && var r := InputAnswer(plan);
      && (r == TooMany <==> |covers| > MAX_PARSE_RESULTS || trouble == Some(TooManyAlternatives))
      && (r == Mismatch <==> |covers| <= MAX_PARSE_RESULTS && trouble == Some(CountMismatch))
      && (r.Parses? <==> |covers| <= MAX_PARSE_RESULTS && trouble == None)
      && (r.Parses? ==> r == Parses(covers, remainder))
  {
    hide Lies, Planned, RunStops, Stops, Product, CoversAll, InOrder, AllValid;
    AnswerIsDetermined(tables, input, groups, remainder, trouble);
    ProductIsExact(groups);
    OrderIsUnique(Product(groups), covers);
    TroubleIsNoAnswer(tables, input, groups, trouble);
  }

  lemma TroubleIsNoAnswer(tables: Tables, input: string, groups: seq<Problem>, trouble: Option<GroupResult>)
    requires Maximal(tables, input, groups, trouble)
    ensures trouble.Some? ==> trouble.value == TooManyAlternatives || trouble.value == CountMismatch
  {
    hide GroupAnswer, NextRun;
  }

  lemma CommonStart(p: Path, q: Path, n: nat)
    requires n <= |p| && n <= |q| && p[..n] == q[..n]
    ensures forall i :: 0 <= i < n ==> p[i] == q[i]
  {
    assert forall i :: 0 <= i < n ==> p[i] == p[..n][i] && q[i] == q[..n][i];
  }

  lemma GreedierIsStrict(p: Path, q: Path)
    requires Greedier(p, q)
    ensures p != q && !Greedier(q, p)
  {
    var k: nat :| k < |p| && k < |q| && p[..k] == q[..k] && p[k].end > q[k].end;
    forall j: nat | j < |q| && j < |p| && q[..j] == p[..j]
      ensures q[j].end <= p[j].end
    {
      CommonStart(p, q, k);
      CommonStart(p, q, j);
    }
  }

  /** Two lists in greedy order that hold the same paths are the same list. */
  lemma {:induction false} OrderIsUnique(a: seq<Path>, b: seq<Path>)
    requires InOrder(a) && InOrder(b) && forall path :: path in a <==> path in b
    ensures a == b
    decreases |a|
  {
    hide Greedier;
    var some := if a != [] then a[0] else if b != [] then b[0] else [];
    assert some in a <==> some in b;
    if a != [] {
      FirstIsLeast(a, b);
      RestHolds(a);
      RestHolds(b);
      OrderIsUnique(a[1..], b[1..]);
      assert a == [a[0]] + a[1..] && b == [b[0]] + b[1..];
    }
  }

  lemma FirstIsLeast(a: seq<Path>, b: seq<Path>)
    requires InOrder(a) && InOrder(b) && a != [] && b != [] && forall path :: path in a <==> path in b
    ensures a[0] == b[0]
  {
    hide Greedier;
    if a[0] != b[0] {
      assert a[0] in a && b[0] in b;
      var i :| 0 <= i < |b| && b[i] == a[0];
      var j :| 0 <= j < |a| && a[j] == b[0];
      assert Greedier(b[0], b[i]) && Greedier(a[0], a[j]);
      GreedierIsStrict(a[0], b[0]);
    }
  }

  lemma RestHolds(a: seq<Path>)
    requires a != [] && InOrder(a)
    ensures InOrder(a[1..]) && forall path :: path in a[1..] <==> path in a && path != a[0]
  {
    hide Greedier;
    forall path
      ensures path in a[1..] <==> path in a && path != a[0]
    {
      if path in a[1..] {
        var i :| 0 <= i < |a| - 1 && a[1..][i] == path;
        assert Greedier(a[0], a[i + 1]);
        GreedierIsStrict(a[0], path);
      }
    }
  }
}
