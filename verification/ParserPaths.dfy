/** The full-pinyin parser's path set for one apostrophe-free group of letters. */
module ParserPaths {
  // A path covers the group from byte 0 to `target` with complete syllables; a fallback path may end
  // in one partial syllable.  The parser counts the paths with one loop, enumerates them with an
  // explicit stack in another, and asserts that the two agree.

  import opened Outcomes

  const MAX_SYLLABLE_LEN := 6
  const MAX_PARSE_RESULTS := 4096
  const OVER_LIMIT := MAX_PARSE_RESULTS + 1

  /** `complete` is the syllable lookup under the caller's options; `partial` is the test for a
      proper prefix, which always uses the default options. */
  datatype Tables = Tables(complete: string -> Option<string>, partial: string -> bool)

  datatype Segment = Segment(text: string, start: nat, end: nat, complete: bool)

  type Path = seq<Segment>

  /** One parse problem: the tables, the group and its offset in the input, the byte the paths must reach, and
      whether a path may end in a partial syllable. */
  datatype Problem = Problem(tables: Tables, group: string, offset: nat, target: nat, partials: bool) {

    ghost predicate Valid() {
      target <= |group|
    }

    function Longest(cursor: nat): (n: nat)
      requires cursor <= target
      ensures cursor + n <= target && n <= MAX_SYLLABLE_LEN
      ensures n < MAX_SYLLABLE_LEN ==> cursor + n == target
    {
      if target - cursor < MAX_SYLLABLE_LEN then target - cursor else MAX_SYLLABLE_LEN
    }

    function Lookup(cursor: nat, length: nat): (r: Option<string>)
      requires Valid() && cursor + length <= target
    {
      tables.complete(group[cursor..cursor + length])
    }

    /** A partial syllable that ends a path: not a complete syllable under the options. */
    predicate EndsPartial(cursor: nat, length: nat)
      requires Valid() && cursor + length <= target
    {
      && partials && cursor + length == target
      && Lookup(cursor, length).None? && tables.partial(group[cursor..target])
    }

    function CompleteSegment(text: string, cursor: nat, length: nat): (s: Segment)
      ensures s.end == offset + cursor + length
    {
      Segment(text, offset + cursor, offset + cursor + length, true)
    }

    function PartialSegment(cursor: nat): (s: Segment)
      requires Valid() && cursor <= target
    {
      Segment(group[cursor..target], offset + cursor, offset + target, false)
    }

    // ---- the path set, longest syllable first ----

    /** The paths from `cursor` whose first syllable has at most `length` bytes. */
    ghost function Paths(cursor: nat, length: nat): (r: seq<Path>)
      requires Valid() && cursor + length <= target
      decreases target - cursor, length
    {
      if cursor == target then [[]]
      else if length == 0 then []
      else StartingWith(cursor, length) + Paths(cursor, length - 1)
    }

    /** The paths from `cursor` whose first syllable has exactly `length` bytes. */
    ghost function StartingWith(cursor: nat, length: nat): (r: seq<Path>)
      requires Valid() && 0 < length && cursor + length <= target
      decreases target - cursor, length, 0
    {
      match Lookup(cursor, length)
      case Some(text) => Prefixed([CompleteSegment(text, cursor, length)], AllFrom(cursor + length))
      case None => if EndsPartial(cursor, length) then [[PartialSegment(cursor)]] else []
    }

    ghost function AllFrom(cursor: nat): (r: seq<Path>)
      requires Valid() && cursor <= target
      decreases target - cursor, MAX_SYLLABLE_LEN + 1
    {
      Paths(cursor, Longest(cursor))
    }
  }

  function Prefixed(p: Path, qs: seq<Path>): (r: seq<Path>)
    ensures |r| == |qs|
  {
    seq(|qs|, i requires 0 <= i < |qs| => p + qs[i])
  }

  lemma PrefixedAppend(p: Path, a: seq<Path>, b: seq<Path>)
    ensures Prefixed(p, a + b) == Prefixed(p, a) + Prefixed(p, b)
  {
  }

  lemma PrefixedNil(qs: seq<Path>)
    ensures Prefixed([], qs) == qs
  {
    assert forall i :: 0 <= i < |qs| ==> [] + qs[i] == qs[i];
  }

  lemma PrefixedTwice(p: Path, q: Path, rs: seq<Path>)
    ensures Prefixed(p, Prefixed(q, rs)) == Prefixed(p + q, rs)
  {
    assert forall i :: 0 <= i < |rs| ==> p + (q + rs[i]) == (p + q) + rs[i];
  }

  /** A path as the parser's results promise it: adjacent spans from `cursor` to the target, every one a
      complete syllable except, in a fallback, a last partial one. */
  ghost predicate Covers(pb: Problem, path: Path, cursor: nat)
    requires pb.Valid() && cursor <= pb.target
    decreases |path|
  {
    if path == [] then cursor == pb.target
    else
      var s := path[0];
      && s.start == pb.offset + cursor
      && cursor < pb.target
      && 0 < s.end - s.start <= MAX_SYLLABLE_LEN
      && s.end <= pb.offset + pb.target
      && (if s.complete
          then pb.Lookup(cursor, s.end - s.start) == Some(s.text) && Covers(pb, path[1..], s.end - pb.offset)
          else |path| == 1 && pb.EndsPartial(cursor, s.end - s.start) && s == pb.PartialSegment(cursor))
  }

  lemma PrefixedMember(seg: Segment, rest: seq<Path>, path: Path)
    ensures path in Prefixed([seg], rest) <==> path != [] && path[0] == seg && path[1..] in rest
  {
    var r := Prefixed([seg], rest);
    if path in r {
      var i :| 0 <= i < |r| && r[i] == path;
      assert path[1..] == rest[i];
    }
    if path != [] && path[0] == seg && path[1..] in rest {
      var i :| 0 <= i < |rest| && rest[i] == path[1..];
      assert r[i] == path;
    }
  }

  /** A covering path either starts with the syllable of exactly `length` bytes or with a shorter one. */
  lemma CoversByLength(pb: Problem, cursor: nat, length: nat, path: Path)
    requires pb.Valid() && 0 < length <= MAX_SYLLABLE_LEN && cursor + length <= pb.target
    requires path != [] && path[0].end - path[0].start == length
    ensures Covers(pb, path, cursor) <==>
      match pb.Lookup(cursor, length)
      case Some(text) => path[0] == pb.CompleteSegment(text, cursor, length) && Covers(pb, path[1..], cursor + length)
      case None => pb.EndsPartial(cursor, length) && path == [pb.PartialSegment(cursor)]
  {
  }

  /** The enumeration is sound and complete: it lists exactly the covering paths. */
  lemma {:induction false} PathsAreCovers(pb: Problem, cursor: nat, length: nat, path: Path)
    requires pb.Valid() && cursor + length <= pb.target && length <= MAX_SYLLABLE_LEN
    ensures path in pb.Paths(cursor, length) <==>
            Covers(pb, path, cursor) && (path == [] || path[0].end - path[0].start <= length)
    decreases pb.target - cursor, length
  {
    if cursor < pb.target && length > 0 {
      StartsAreCovers(pb, cursor, length, path);
      PathsAreCovers(pb, cursor, length - 1, path);
    }
  }

  lemma {:induction false} StartsAreCovers(pb: Problem, cursor: nat, length: nat, path: Path)
    requires pb.Valid() && 0 < length <= MAX_SYLLABLE_LEN && cursor + length <= pb.target
    ensures path in pb.StartingWith(cursor, length) <==>
            path != [] && Covers(pb, path, cursor) && path[0].end - path[0].start == length
    decreases pb.target - cursor, length, 0
  {
    var next := cursor + length;
    if pb.Lookup(cursor, length).Some? {
      PrefixedMember(pb.CompleteSegment(pb.Lookup(cursor, length).value, cursor, length), pb.AllFrom(next), path);
    }
    if path != [] && path[0].end - path[0].start == length {
      CoversByLength(pb, cursor, length, path);
      PathsAreCovers(pb, next, pb.Longest(next), path[1..]);
      FirstFits(pb, path[1..], next);
    }
    hide Covers;
    hide pb.Paths;
  }

  lemma FirstFits(pb: Problem, path: Path, cursor: nat)
    requires pb.Valid() && cursor <= pb.target
    ensures Covers(pb, path, cursor) && path != [] ==> path[0].end - path[0].start <= pb.Longest(cursor)
  {
  }

  // ---- the order of the enumeration ----

  /** Greedy longest first: where the two paths part, `p` takes the longer segment. */
  ghost predicate Greedier(p: Path, q: Path) {
    exists k: nat :: k < |p| && k < |q| && p[..k] == q[..k] && p[k].end > q[k].end
  }

  ghost predicate InOrder(paths: seq<Path>) {
    forall i, j :: 0 <= i < j < |paths| ==> Greedier(paths[i], paths[j])
  }

  lemma GreedierUnder(seg: Segment, p: Path, q: Path)
    requires Greedier(p, q)
    ensures Greedier([seg] + p, [seg] + q)
  {
    var k: nat :| k < |p| && k < |q| && p[..k] == q[..k] && p[k].end > q[k].end;
    var p', q' := [seg] + p, [seg] + q;
    assert p'[..k + 1] == [seg] + p[..k] && q'[..k + 1] == [seg] + q[..k];
    assert p'[k + 1].end > q'[k + 1].end;
  }

  lemma PrefixedInOrder(seg: Segment, paths: seq<Path>)
    requires InOrder(paths)
    ensures InOrder(Prefixed([seg], paths))
  {
    hide Greedier;
    var r := Prefixed([seg], paths);
    forall i, j | 0 <= i < j < |r|
      ensures Greedier(r[i], r[j])
    {
      GreedierUnder(seg, paths[i], paths[j]);
    }
  }

  lemma AppendInOrder(a: seq<Path>, b: seq<Path>)
    requires InOrder(a) && InOrder(b) && forall p, q :: p in a && q in b ==> Greedier(p, q)
    ensures InOrder(a + b)
  {
    hide Greedier;
  }

  /** The enumeration lists the longer first syllable first, at every position: the frozen order, and no path twice. */
  lemma {:induction false} PathsInOrder(pb: Problem, cursor: nat, length: nat)
    requires pb.Valid() && cursor + length <= pb.target && length <= MAX_SYLLABLE_LEN
    ensures InOrder(pb.Paths(cursor, length))
    decreases pb.target - cursor, length
  {
    if cursor < pb.target && length > 0 {
      hide InOrder, Greedier, Covers;
      var first, rest := pb.StartingWith(cursor, length), pb.Paths(cursor, length - 1);
      StartsInOrder(pb, cursor, length);
      PathsInOrder(pb, cursor, length - 1);
      forall p, q | p in first && q in rest
        ensures Greedier(p, q)
      {
        StartsAreCovers(pb, cursor, length, p);
        PathsAreCovers(pb, cursor, length - 1, q);
        LongerFirst(pb, p, q, cursor, length);
      }
      AppendInOrder(first, rest);
    }
  }

  lemma LongerFirst(pb: Problem, p: Path, q: Path, cursor: nat, length: nat)
    requires pb.Valid() && cursor < pb.target && Covers(pb, p, cursor) && Covers(pb, q, cursor)
    requires p != [] && p[0].end - p[0].start == length && q != [] && q[0].end - q[0].start < length
    ensures Greedier(p, q)
  {
    assert p[..0] == q[..0] && p[0].end > q[0].end;
  }

  lemma {:induction false} StartsInOrder(pb: Problem, cursor: nat, length: nat)
    requires pb.Valid() && 0 < length <= MAX_SYLLABLE_LEN && cursor + length <= pb.target
    ensures InOrder(pb.StartingWith(cursor, length))
    decreases pb.target - cursor, length, 0
  {
    if pb.Lookup(cursor, length).Some? {
      var next := cursor + length;
      PathsInOrder(pb, next, pb.Longest(next));
      PrefixedInOrder(pb.CompleteSegment(pb.Lookup(cursor, length).value, cursor, length), pb.AllFrom(next));
    }
  }

  lemma {:induction false} OrderedIsDistinct(paths: seq<Path>)
    requires InOrder(paths)
    ensures |set p | p in paths| == |paths|
  {
    if paths != [] {
      var last := |paths| - 1;
      var init, p := paths[..last], paths[last];
      OrderedIsDistinct(init);
      forall i | 0 <= i < last
        ensures init[i] != p
      {
        assert Greedier(paths[i], paths[last]);
      }
      assert (set q | q in paths) == (set q | q in init) + {p};
    }
  }

  /** The covers of the bytes up to the target, as a set. */
  ghost function CoverSet(pb: Problem): (r: set<Path>)
    requires pb.Valid()
    ensures forall p :: p in r <==> Covers(pb, p, 0)
    ensures |r| == |pb.AllFrom(0)|
  {
    var all := pb.AllFrom(0);
    EachCoverOnce(pb);
    set p | p in all
  }

  /** The enumeration lists every cover, in the frozen order, and none twice: removing duplicates would remove
      nothing. */
  lemma EachCoverOnce(pb: Problem)
    requires pb.Valid()
    ensures forall p :: p in pb.AllFrom(0) <==> Covers(pb, p, 0)
    ensures InOrder(pb.AllFrom(0))
    ensures forall i, j :: 0 <= i < j < |pb.AllFrom(0)| ==> pb.AllFrom(0)[i] != pb.AllFrom(0)[j]
    ensures |set p | p in pb.AllFrom(0)| == |pb.AllFrom(0)|
  {
    hide Covers, pb.Paths;
    var all := pb.AllFrom(0);
    forall p
      ensures p in all <==> Covers(pb, p, 0)
    {
      PathsAreCovers(pb, 0, pb.Longest(0), p);
      FirstFits(pb, p, 0);
    }
    PathsInOrder(pb, 0, pb.Longest(0));
    OrderedIsDistinct(all);
    forall i, j | 0 <= i < j < |all|
      ensures all[i] != all[j]
    {
      assert Greedier(all[i], all[j]);
    }
  }

  // ---- the enumeration with an explicit stack ----

  datatype Frame = Frame(cursor: nat, nextLength: nat)

  ghost predicate StackValid(pb: Problem, stack: seq<Frame>, path: Path)
    requires pb.Valid()
  {
    && (|stack| == 0 ==> path == [])
    && (|stack| > 0 ==> |path| == |stack| - 1)
    && forall i :: 0 <= i < |stack| ==> FrameValid(pb, stack[i])
  }

  ghost predicate FrameValid(pb: Problem, frame: Frame) {
    frame.cursor + frame.nextLength <= pb.target && frame.nextLength <= MAX_SYLLABLE_LEN
  }

  /** What the frames of the stack have still to produce, the top frame first. */
  ghost function Pending(pb: Problem, stack: seq<Frame>, path: Path): (r: seq<Path>)
    requires pb.Valid() && StackValid(pb, stack, path)
    decreases |stack|
  {
    if stack == [] then []
    else
      var top := stack[|stack| - 1];
      Prefixed(path, pb.Paths(top.cursor, top.nextLength))
      + Pending(pb, stack[..|stack| - 1], if |stack| == 1 then [] else path[..|path| - 1])
  }

  /** An upper bound on the steps a frame still causes. */
  ghost function Work(pb: Problem, cursor: nat, length: nat): (n: nat)
    requires cursor + length <= pb.target
    ensures n > 0
    decreases pb.target - cursor, length
  {
    if length == 0 then 1
    else 1 + Work(pb, cursor + length, pb.Longest(cursor + length)) + Work(pb, cursor, length - 1)
  }

  ghost function StackWork(pb: Problem, stack: seq<Frame>): (n: nat)
    requires forall i :: 0 <= i < |stack| ==> FrameValid(pb, stack[i])
    ensures stack != [] ==> n > 0
  {
    if stack == [] then 0
    else
      var top := stack[|stack| - 1];
      assert FrameValid(pb, top);
      Work(pb, top.cursor, top.nextLength) + StackWork(pb, stack[..|stack| - 1])
  }

  lemma StepFindsSyllable(pb: Problem, cursor: nat, length: nat, path: Path)
    requires pb.Valid() && 0 < length && cursor + length <= pb.target && pb.Lookup(cursor, length).Some?
    ensures Prefixed(path, pb.Paths(cursor, length))
         == Prefixed(path + [pb.CompleteSegment(pb.Lookup(cursor, length).value, cursor, length)],
             pb.AllFrom(cursor + length))
            + Prefixed(path, pb.Paths(cursor, length - 1))
  {
    var seg := pb.CompleteSegment(pb.Lookup(cursor, length).value, cursor, length);
    PrefixedAppend(path, Prefixed([seg], pb.AllFrom(cursor + length)), pb.Paths(cursor, length - 1));
    PrefixedTwice(path, [seg], pb.AllFrom(cursor + length));
  }

  lemma StepFindsNone(pb: Problem, cursor: nat, length: nat, path: Path)
    requires pb.Valid() && 0 < length && cursor + length <= pb.target && pb.Lookup(cursor, length).None?
    ensures Prefixed(path, pb.Paths(cursor, length))
         == (if pb.EndsPartial(cursor, length) then [path + [pb.PartialSegment(cursor)]] else [])
            + Prefixed(path, pb.Paths(cursor, length - 1))
  {
    var head := if pb.EndsPartial(cursor, length) then [[pb.PartialSegment(cursor)]] else [];
    PrefixedAppend(path, head, pb.Paths(cursor, length - 1));
  }

  lemma NoLengthLeft(pb: Problem, cursor: nat, path: Path)
    requires pb.Valid() && cursor < pb.target
    ensures Prefixed(path, pb.Paths(cursor, 0)) == []
  {
  }

  /** Scans one frame's lengths downwards to the next complete syllable, emitting a partial ending on the way. */
  method Scan(pb: Problem, cursor: nat, nextLength: nat, path: Path)
    returns (emitted: seq<Path>, next: nat, found: Option<Segment>)
    requires pb.Valid() && cursor < pb.target && cursor + nextLength <= pb.target && nextLength <= MAX_SYLLABLE_LEN
    ensures next <= nextLength
    ensures found.None? ==> Prefixed(path, pb.Paths(cursor, nextLength)) == emitted
    ensures found.Some? ==>
      && next < nextLength && found.value.end == pb.offset + cursor + next + 1
      && Prefixed(path, pb.Paths(cursor, nextLength))
         == emitted + Prefixed(path + [found.value], pb.AllFrom(cursor + next + 1)) +
             Prefixed(path, pb.Paths(cursor, next))
  {
    hide *;
    NoLengthLeft(pb, cursor, path);
    emitted, next, found := [], nextLength, None;
    while next != 0
      invariant next <= nextLength && found.None?
      invariant Prefixed(path, pb.Paths(cursor, nextLength)) == emitted + Prefixed(path, pb.Paths(cursor, next))
    {
      var length := next;
      next := next - 1;
      match pb.Lookup(cursor, length)
      case Some(text) =>
        StepFindsSyllable(pb, cursor, length, path);
        found := Some(pb.CompleteSegment(text, cursor, length));
        Regroup([], emitted, [], Prefixed(path + [found.value], pb.AllFrom(cursor + length)),
            Prefixed(path, pb.Paths(cursor, next)));
        return;
      case None =>
        StepFindsNone(pb, cursor, length, path);
        if pb.EndsPartial(cursor, length) {
          emitted := emitted + [path + [pb.PartialSegment(cursor)]];
        }
    }
  }

  lemma {:induction false} WorkShrinks(pb: Problem, cursor: nat, length: nat, next: nat)
    requires next < length && cursor + length <= pb.target
    ensures Work(pb, cursor, length) > Work(pb, cursor + next + 1, pb.Longest(cursor + next + 1)) +
      Work(pb, cursor, next)
    decreases length
  {
    if next + 1 < length { WorkShrinks(pb, cursor, length - 1, next); }
  }

  lemma PendingPop(pb: Problem, stack: seq<Frame>, top: Frame, path: Path, shorter: Path)
    requires pb.Valid() && FrameValid(pb, top) && StackValid(pb, stack, shorter)
    requires |path| == |stack| && shorter == if stack == [] then [] else path[..|path| - 1]
    ensures StackValid(pb, stack + [top], path)
    ensures StackWork(pb, stack) < StackWork(pb, stack + [top])
    ensures Pending(pb, stack + [top], path)
         == Prefixed(path, pb.Paths(top.cursor, top.nextLength)) + Pending(pb, stack, shorter)
    ensures StackWork(pb, stack + [top]) == Work(pb, top.cursor, top.nextLength) + StackWork(pb, stack)
  {
    assert (stack + [top])[..|stack|] == stack;
  }

  lemma AtTarget(pb: Problem, length: nat, path: Path)
    requires pb.Valid() && length == 0
    ensures Prefixed(path, pb.Paths(pb.target, length)) == [path]
  {
    assert path + [] == path;
  }

  lemma NothingPending(pb: Problem)
    requires pb.Valid()
    ensures StackValid(pb, [], []) && Pending(pb, [], []) == []
  {
  }

  lemma Descend(pb: Problem, below: seq<Frame>, top: Frame, next: nat, seg: Segment, path: Path, shorter: Path)
    requires pb.Valid() && FrameValid(pb, top) && StackValid(pb, below, shorter) && next < top.nextLength
    requires |path| == |below| && shorter == if below == [] then [] else path[..|path| - 1]
    ensures var stack := below + [Frame(top.cursor, next)] +
      [Frame(top.cursor + next + 1, pb.Longest(top.cursor + next + 1))];
      && StackValid(pb, stack, path + [seg])
      && Pending(pb, stack, path + [seg])
         == Prefixed(path + [seg], pb.AllFrom(top.cursor + next + 1)) +
             (Prefixed(path, pb.Paths(top.cursor, next)) + Pending(pb, below, shorter))
      && StackValid(pb, below + [top], path) && StackWork(pb, stack) < StackWork(pb, below + [top])
  {
    hide Pending;
    hide Prefixed;
    hide pb.Paths;
    hide StackWork;
    hide Work;
    WorkShrinks(pb, top.cursor, top.nextLength, next);
    var parent, child := Frame(top.cursor, next), Frame(top.cursor + next + 1, pb.Longest(top.cursor + next + 1));
    assert (path + [seg])[..|path|] == path;
    PendingPop(pb, below, top, path, shorter);
    PendingPop(pb, below, parent, path, shorter);
    PendingPop(pb, below + [parent], child, path + [seg], path);
  }

  ghost predicate Enumerating(pb: Problem, results: seq<Path>, stack: seq<Frame>, path: Path)
    requires pb.Valid()
  {
    StackValid(pb, stack, path) && results + Pending(pb, stack, path) == pb.AllFrom(0)
  }

  /** One step of the depth-first walk: finish the top frame, or find its next syllable and descend. */
  method Advance(pb: Problem, results: seq<Path>, below: seq<Frame>, top: Frame, path: Path)
    returns (results': seq<Path>, stack': seq<Frame>, path': Path)
    requires pb.Valid() && Enumerating(pb, results, below + [top], path)
    ensures Enumerating(pb, results', stack', path')
    ensures StackWork(pb, stack') < StackWork(pb, below + [top])
  {
    hide Pending;
    hide Prefixed;
    hide pb.Paths;
    hide pb.AllFrom;
    hide StackWork;
    hide Work;
    var shorter := if below == [] then [] else path[..|path| - 1];
    Below(pb, below, top, path, shorter);
    PendingPop(pb, below, top, path, shorter);
    if top.cursor == pb.target {
      AtTarget(pb, top.nextLength, path);
      assert results + ([path] + Pending(pb, below, shorter)) == results + [path] + Pending(pb, below, shorter);
      return results + [path], below, shorter;
    }
    var emitted, next, found := Scan(pb, top.cursor, top.nextLength, path);
    results' := results + emitted;
    match found
    case Some(seg) =>
      Regroup(results, emitted, Prefixed(path + [seg], pb.AllFrom(top.cursor + next + 1)),
          Prefixed(path, pb.Paths(top.cursor, next)),
              Pending(pb, below, shorter));
      Descend(pb, below, top, next, seg, path, shorter);
      stack' := below + [Frame(top.cursor, next)] + [Frame(top.cursor + next + 1, pb.Longest(top.cursor + next + 1))];
      path' := path + [seg];
    case None =>
      Regroup(results, emitted, [], [], Pending(pb, below, shorter));
      stack', path' := below, shorter;
  }

  lemma Regroup(a: seq<Path>, b: seq<Path>, c: seq<Path>, d: seq<Path>, e: seq<Path>)
    ensures a + ((b + c + d) + e) == (a + b) + (c + (d + e))
    ensures a + (b + e) == (a + b) + e
    ensures b + (d + e) == b + d + e
  {
  }

  lemma Below(pb: Problem, below: seq<Frame>, top: Frame, path: Path, shorter: Path)
    requires pb.Valid() && StackValid(pb, below + [top], path)
    requires shorter == if below == [] then [] else path[..|path| - 1]
    ensures FrameValid(pb, top) && StackValid(pb, below, shorter)
  {
    assert (below + [top])[|below|] == top;
    assert forall i :: 0 <= i < |below| ==> (below + [top])[i] == below[i];
  }

  /** Enumerates the paths to the target depth first, longest syllable first. */
  method Enumerate(pb: Problem) returns (results: seq<Path>)
    requires pb.Valid()
    ensures results == pb.AllFrom(0)
  {
    results := [];
    var path: Path := [];
    var stack := [Frame(0, pb.Longest(0))];
    NothingPending(pb);
    PendingPop(pb, [], stack[0], path, []);
    PrefixedNil(pb.AllFrom(0));
    assert [] + stack == stack;
    while stack != []
      invariant Enumerating(pb, results, stack, path)
      decreases StackWork(pb, stack)
    {
      assert stack == stack[..|stack| - 1] + [stack[|stack| - 1]];
      results, stack, path := Advance(pb, results, stack[..|stack| - 1], stack[|stack| - 1], path);
    }
    NothingPending(pb);
  }

  // ---- paths by their spans ----

  /** Segment `i` of a path: it starts where the one before it ends; a complete one spells what the lookup of its bytes
      answers; a partial one is the last, and holds bytes that are partial and not complete. */
  ghost predicate SpanOk(pb: Problem, path: Path, cursor: nat, i: nat)
    requires pb.Valid() && i < |path|
  {
    var s := path[i];
    && s.start == (if i == 0 then pb.offset + cursor else path[i - 1].end)
    && pb.offset <= s.start < s.end <= pb.offset + pb.target && s.end <= s.start + 6
    && var bytes := pb.group[s.start - pb.offset..s.end - pb.offset];
      if s.complete then pb.tables.complete(bytes) == Some(s.text)
      else i == |path| - 1 && pb.partials && s.text == bytes && s.end == pb.offset + pb.target
           && pb.tables.complete(bytes) == None && pb.tables.partial(bytes)
  }

  ghost predicate Spans(pb: Problem, path: Path, cursor: nat)
    requires pb.Valid()
  {
    && (forall i :: 0 <= i < |path| ==> SpanOk(pb, path, cursor, i))
    && (if path == [] then cursor == pb.target else path[|path| - 1].end == pb.offset + pb.target)
  }

  /** A later segment is as good on the path without its first segment. */
  lemma SpanShifts(pb: Problem, path: Path, cursor: nat, i: nat, next: nat)
    requires pb.Valid() && 0 < i < |path| && path[0].end == pb.offset + next
    ensures SpanOk(pb, path, cursor, i) <==> SpanOk(pb, path[1..], next, i - 1)
  {
  }

  /** The first segment, as the covers and the spans see it. */
  lemma FirstSpan(pb: Problem, path: Path, cursor: nat)
    requires pb.Valid() && cursor <= pb.target && path != []
    ensures SpanOk(pb, path, cursor, 0) ==> pb.offset <= path[0].end <= pb.offset + pb.target
    ensures Covers(pb, path, cursor) <==>
      && SpanOk(pb, path, cursor, 0)
      && if path[0].complete then Covers(pb, path[1..], path[0].end - pb.offset) else |path| == 1
  {
  }

  lemma SpansShift(pb: Problem, path: Path, cursor: nat, next: nat)
    requires pb.Valid() && path != [] && path[0].end == pb.offset + next
    ensures Spans(pb, path, cursor) <==> SpanOk(pb, path, cursor, 0) && Spans(pb, path[1..], next)
  {
    hide SpanOk;
    var rest := path[1..];
    if Spans(pb, path, cursor) {
      forall i | 0 <= i < |rest|
        ensures SpanOk(pb, rest, next, i)
      {
        SpanShifts(pb, path, cursor, i + 1, next);
      }
    }
    if SpanOk(pb, path, cursor, 0) && Spans(pb, rest, next) {
      forall i | 0 <= i < |path|
        ensures SpanOk(pb, path, cursor, i)
      {
        if i > 0 {
          SpanShifts(pb, path, cursor, i, next);
        }
      }
    }
  }

  /** The covering paths are the paths whose segments, looked at one by one, span the bytes to the target. */
  lemma {:induction false} CoversAreSpans(pb: Problem, path: Path, cursor: nat)
    requires pb.Valid() && cursor <= pb.target
    ensures Covers(pb, path, cursor) <==> Spans(pb, path, cursor)
    decreases |path|
  {
    if path != [] {
      FirstSpan(pb, path, cursor);
      if SpanOk(pb, path, cursor, 0) {
        PartialIsLast(pb, path, cursor);
        var next: nat := path[0].end - pb.offset;
        CoversAreSpans(pb, path[1..], next);
        hide Covers, SpanOk;
        SpansShift(pb, path, cursor, next);
        if !path[0].complete { assert path[1..] == []; }
      } else {
        hide Covers, SpanOk;
      }
    }
  }

  lemma PartialIsLast(pb: Problem, path: Path, cursor: nat)
    requires pb.Valid() && path != [] && SpanOk(pb, path, cursor, 0)
    ensures !path[0].complete ==> |path| == 1 && path[0].end == pb.offset + pb.target
  {
  }
}
