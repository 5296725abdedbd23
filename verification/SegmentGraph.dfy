/** Paths through a segment graph, and the order the decoder ranks them in. */
module SegmentGraph {
  // Nodes stand for positions in one input, so edges only lead onwards.  What an edge costs may depend
  // on the edge taken before it; a search therefore tells apart by which edge a node was reached: state 0
  // is the start, state `e + 1` means that edge `e` came last.
  // `Ranked` is the frozen ranking with a beam width; `Unbounded` is the same ranking with nothing
  // cut.  `IsWalk`, `WalkCost` and `Better` define the same thing with no ranking at all.

  import opened Outcomes
  import opened Sorting

  const MAX_COST := 0x7FFF_FFFF_FFFF_FFFF
  const MIN_COST := -0x8000_0000_0000_0000

  type Cost = c: int | MIN_COST <= c <= MAX_COST

  function SaturatingAdd(a: Cost, b: Cost): (c: Cost) {
    if a + b > MAX_COST then MAX_COST else if a + b < MIN_COST then MIN_COST else a + b
  }

  /** One key match spanning a byte range; `key` stands for the match's other fields. */
  datatype Edge = Edge(from: nat, to: nat, key: nat)

  type Scorer = (Option<Edge>, Edge) -> Cost

  datatype Path = Path(cost: Cost, edges: seq<nat>)

  datatype Width = AtMost(k: nat) | Unbounded

  /** `starts[n]..starts[n + 1]` are the ids of the edges leaving node `n`. */
  datatype Graph = Graph(nodeCount: nat, edges: seq<Edge>, starts: seq<nat>) {

    ghost predicate Valid() {
      && nodeCount > 0
      && |starts| == nodeCount + 1
      && starts[0] == 0 && starts[nodeCount] == |edges|
      && (forall n :: 0 <= n < nodeCount ==> starts[n] <= starts[n + 1])
      && (forall e :: 0 <= e < |edges| ==> edges[e].from < edges[e].to < nodeCount)
      && (forall e :: 0 <= e < |edges| ==>
            starts[edges[e].from] <= e < starts[edges[e].from + 1])
    }

    /** The edges of `path` exist. */
    ghost predicate Owns(path: seq<nat>) {
      forall i :: 0 <= i < |path| ==> path[i] < |edges|
    }

    /** The states are states of `node`. */
    ghost predicate Current(node: nat, states: seq<nat>) {
      forall i :: 0 <= i < |states| ==> states[i] <= |edges| && Node(states[i]) == node
    }

    function Node(state: nat): (n: nat)
      requires state <= |edges|
    {
      if state == 0 then 0 else edges[state - 1].to
    }

    /** The states below `bound` that are current at `node`, ascending. */
    function StatesBelow(node: nat, bound: nat): (r: seq<nat>)
      requires bound <= |edges| + 1
    {
      if bound == 0 then []
      else StatesBelow(node, bound - 1) + if Node(bound - 1) == node then [bound - 1] else []
    }

    lemma {:induction false} StatesBelowAre(node: nat, bound: nat)
      requires bound <= |edges| + 1
      ensures forall s: nat :: s in StatesBelow(node, bound) <==> s < bound && Node(s) == node
      decreases bound
    {
      if bound > 0 { StatesBelowAre(node, bound - 1); }
    }

    lemma {:induction false} StatesBelowAscend(node: nat, bound: nat)
      requires bound <= |edges| + 1
      ensures forall i, j :: 0 <= i < j < |StatesBelow(node, bound)| ==>
        StatesBelow(node, bound)[i] < StatesBelow(node, bound)[j]
      decreases bound
    {
      if bound > 0 {
        StatesBelowAscend(node, bound - 1);
        StatesBelowAre(node, bound - 1);
        var before := StatesBelow(node, bound - 1);
        assert forall i :: 0 <= i < |before| ==> before[i] in before;
      }
    }

    lemma StatesAtAre(node: nat)
      ensures Current(node, StatesBelow(node, |edges| + 1))
      ensures forall s: nat :: s <= |edges| && Node(s) == node ==> s in StatesBelow(node, |edges| + 1)
    {
      hide StatesBelow;
      StatesBelowAre(node, |edges| + 1);
      var all := StatesBelow(node, |edges| + 1);
      assert forall i :: 0 <= i < |all| ==> all[i] in all;
    }

    function StatesAt(node: nat): (r: seq<nat>)
      ensures Current(node, r)
      ensures forall s: nat :: s <= |edges| && Node(s) == node ==> s in r
      ensures forall i, j :: 0 <= i < j < |r| ==> r[i] < r[j]
    {
      StatesAtAre(node);
      StatesBelowAscend(node, |edges| + 1);
      StatesBelow(node, |edges| + 1)
    }

    function LastEdge(path: seq<nat>): (e: Option<Edge>) {
      if path == [] || path[|path| - 1] >= |edges| then None
      else Some(edges[path[|path| - 1]])
    }
  }

  predicate Cheaper(p: Path, q: Path) { p.cost <= q.cost }

  function Extend(g: Graph, scorer: Scorer, e: nat, p: Path): (q: Path)
    requires e < |g.edges|
  {
    Path(SaturatingAdd(p.cost, scorer(g.LastEdge(p.edges), g.edges[e])), p.edges + [e])
  }

  function Along(g: Graph, scorer: Scorer, e: nat): (f: Path -> Path)
    requires e < |g.edges|
    ensures forall p :: f(p) == Extend(g, scorer, e, p)
  {
    p => Extend(g, scorer, e, p)
  }

  function Cut(w: Width, xs: seq<Path>): (r: seq<Path>) {
    match w
    case AtMost(k) => Take(k, xs)
    case Unbounded => xs
  }

  // ---- the ranking ----

  /** The paths of one state, cheapest first, cut to the beam width. */
  ghost function Ranked(g: Graph, scorer: Scorer, w: Width, state: nat): (r: seq<Path>)
    requires g.Valid() && state <= |g.edges|
    decreases g.Node(state), 1, 0
  {
    if state == 0 then Cut(w, [Path(0, [])])
    else Cut(w, Sort(Cheaper, Generated(g, scorer, w, state - 1)))
  }

  /** The extensions along edge `e`, in the order the sweep generates them. */
  ghost function Generated(g: Graph, scorer: Scorer, w: Width, e: nat): (r: seq<Path>)
    requires g.Valid() && e < |g.edges|
    decreases g.edges[e].to, 0, 0
  {
    Map(Along(g, scorer, e), Collect(g, scorer, w, g.edges[e].from, g.StatesAt(g.edges[e].from)))
  }

  /** The ranked paths of several states of one node, one state after another. */
  ghost function Collect(g: Graph, scorer: Scorer, w: Width, node: nat, states: seq<nat>): (r: seq<Path>)
    requires g.Valid()
    requires g.Current(node, states)
    decreases node, 2, |states|
  {
    if states == [] then []
    else
      var last := |states| - 1;
      Collect(g, scorer, w, node, states[..last]) + Ranked(g, scorer, w, states[last])
  }

  /** Every path to `target`, ranked. */
  ghost function AllPaths(g: Graph, scorer: Scorer, target: nat): (r: seq<Path>)
    requires g.Valid()
  {
    Sort(Cheaper, Collect(g, scorer, Unbounded, target, g.StatesAt(target)))
  }

  // ---- the reference: walks, their cost, and the tie order ----

  ghost predicate IsWalk(g: Graph, path: seq<nat>, node: nat)
    decreases |path|
  {
    if path == [] then node == 0
    else
      var e := path[|path| - 1];
      e < |g.edges| && g.edges[e].to == node && IsWalk(g, path[..|path| - 1], g.edges[e].from)
  }

  ghost function WalkCost(g: Graph, scorer: Scorer, path: seq<nat>): (c: Cost)
    requires g.Owns(path)
    decreases |path|
  {
    if path == [] then 0
    else
      var init, e := path[..|path| - 1], path[|path| - 1];
      SaturatingAdd(WalkCost(g, scorer, init), scorer(g.LastEdge(init), g.edges[e]))
  }

  // ---- what a cost is, with no running total ----

  /** The cost of the `i`-th step: its edge after the edge before it. */
  function StepCost(g: Graph, scorer: Scorer, path: seq<nat>, i: nat): (c: Cost)
    requires g.Owns(path) && i < |path|
  {
    scorer(if i == 0 then None else Some(g.edges[path[i - 1]]), g.edges[path[i]])
  }

  /** The plain sum of the first `n` steps, unbounded. */
  function PlainSum(g: Graph, scorer: Scorer, path: seq<nat>, n: nat): (c: int)
    requires g.Owns(path) && n <= |path|
  {
    if n == 0 then 0 else PlainSum(g, scorer, path, n - 1) + StepCost(g, scorer, path, n - 1)
  }

  /** No sum on the way leaves the range of a cost. */
  ghost predicate InRange(g: Graph, scorer: Scorer, path: seq<nat>) {
    g.Owns(path) && forall n :: 0 <= n <= |path| ==> MIN_COST <= PlainSum(g, scorer, path, n) <= MAX_COST
  }

  lemma {:induction false} SumOfInit(g: Graph, scorer: Scorer, path: seq<nat>, n: nat)
    requires g.Owns(path) && path != [] && n <= |path| - 1
    ensures g.Owns(path[..|path| - 1])
    ensures PlainSum(g, scorer, path[..|path| - 1], n) == PlainSum(g, scorer, path, n)
  {
    if n > 0 { SumOfInit(g, scorer, path, n - 1); }
  }

  /** The last step is added to the cost of what is before it; a step past either bound gives that bound. */
  lemma LastStepCosts(g: Graph, scorer: Scorer, path: seq<nat>)
    requires g.Owns(path) && path != []
    ensures var sum := WalkCost(g, scorer, path[..|path| - 1]) + StepCost(g, scorer, path, |path| - 1);
      WalkCost(g, scorer, path) == if sum > MAX_COST then MAX_COST else if sum < MIN_COST then MIN_COST else sum
  {
    var init := path[..|path| - 1];
    assert g.LastEdge(init) == if |path| == 1 then None else Some(g.edges[path[|path| - 2]]);
  }

  /** In range, a walk costs the plain sum of its steps. */
  lemma {:induction false} CostIsPlainSum(g: Graph, scorer: Scorer, path: seq<nat>)
    requires InRange(g, scorer, path)
    ensures WalkCost(g, scorer, path) == PlainSum(g, scorer, path, |path|)
    decreases |path|
  {
    if path != [] {
      var init := path[..|path| - 1];
      forall n | 0 <= n <= |init|
        ensures g.Owns(init) && PlainSum(g, scorer, init, n) == PlainSum(g, scorer, path, n)
      {
        SumOfInit(g, scorer, path, n);
      }
      hide WalkCost;
      CostIsPlainSum(g, scorer, init);
      LastStepCosts(g, scorer, path);
    }
  }

  function StateOf(path: seq<nat>): (s: nat) {
    if path == [] then 0 else path[|path| - 1] + 1
  }

  ghost predicate IsPathTo(g: Graph, scorer: Scorer, p: Path, node: nat) {
    && IsWalk(g, p.edges, node)
    && g.Owns(p.edges)
    && p.cost == WalkCost(g, scorer, p.edges)
  }

  /** Order of generation: the smaller last edge first; on one last edge, the cheaper path first,
      and on equal cost the path whose prefix was generated first. */
  ghost predicate Precedes(g: Graph, scorer: Scorer, p: seq<nat>, q: seq<nat>)
    requires g.Owns(p)
    requires g.Owns(q)
    decreases |p|
  {
    || StateOf(p) < StateOf(q)
    || (p != [] && StateOf(p) == StateOf(q) &&
        (|| WalkCost(g, scorer, p) < WalkCost(g, scorer, q)
         || (WalkCost(g, scorer, p) == WalkCost(g, scorer, q) &&
             Precedes(g, scorer, p[..|p| - 1], q[..|q| - 1]))))
  }

  /** The decoder's order on paths: cheaper, and on equal cost generated earlier. */
  ghost predicate Better(g: Graph, scorer: Scorer, p: seq<nat>, q: seq<nat>)
    requires g.Owns(p)
    requires g.Owns(q)
  {
    || WalkCost(g, scorer, p) < WalkCost(g, scorer, q)
    || (WalkCost(g, scorer, p) == WalkCost(g, scorer, q) && Precedes(g, scorer, p, q))
  }

  /** The written tie rules on two walks to one node: the last edge that starts earlier (rule 2); with one and the
      same last edge, the prefix that ranks better among those of its own state, prefixes of different states falling
      under the rules again (rule 3); then the smaller edge id (rule 4). */
  ghost predicate RulesPut(g: Graph, scorer: Scorer, p: seq<nat>, q: seq<nat>)
    requires g.Owns(p) && g.Owns(q)
    decreases |p|
  {
    && p != [] && q != []
    && var a, b := p[|p| - 1], q[|q| - 1];
      || g.edges[a].from < g.edges[b].from
      || (g.edges[a].from == g.edges[b].from && a < b)
      || (a == b &&
          (|| WalkCost(g, scorer, p) < WalkCost(g, scorer, q)
           || (WalkCost(g, scorer, p) == WalkCost(g, scorer, q) && RulesPut(g, scorer, p[..|p| - 1], q[..|q| - 1]))))
  }

  /** Edge ids ascend by the node they leave. */
  lemma {:induction false} StartsAscend(g: Graph, m: nat, n: nat)
    requires g.Valid() && m <= n <= g.nodeCount
    ensures g.starts[m] <= g.starts[n]
    decreases n - m
  {
    if m < n { StartsAscend(g, m, n - 1); }
  }

  lemma EarlierStartFirst(g: Graph, a: nat, b: nat)
    requires g.Valid() && a < |g.edges| && b < |g.edges| && g.edges[a].from < g.edges[b].from
    ensures a < b
  {
    StartsAscend(g, g.edges[a].from + 1, g.edges[b].from);
  }

  /** The decoder's order is the one the rules write down. */
  lemma {:induction false} RulesAreTheOrder(g: Graph, scorer: Scorer, p: seq<nat>, q: seq<nat>, node: nat)
    requires g.Valid() && g.Owns(p) && g.Owns(q) && IsWalk(g, p, node) && IsWalk(g, q, node)
    ensures Precedes(g, scorer, p, q) <==> RulesPut(g, scorer, p, q)
    decreases |p|
  {
    hide WalkCost;
    if p != [] && q != [] {
      var a, b := p[|p| - 1], q[|q| - 1];
      if g.edges[a].from < g.edges[b].from {
        EarlierStartFirst(g, a, b);
      } else if g.edges[b].from < g.edges[a].from {
        EarlierStartFirst(g, b, a);
      } else if a == b {
        RulesAreTheOrder(g, scorer, p[..|p| - 1], q[..|q| - 1], g.edges[a].from);
      }
    }
  }

  lemma SameEnds(p: seq<nat>, q: seq<nat>)
    requires p != [] && q != [] && p[|p| - 1] == q[|q| - 1] && p[..|p| - 1] == q[..|q| - 1]
    ensures p == q
  {
    assert p == p[..|p| - 1] + [p[|p| - 1]] && q == q[..|q| - 1] + [q[|q| - 1]];
  }

  lemma WalkInit(g: Graph, p: seq<nat>, node: nat)
    requires p != [] && g.Owns(p) && IsWalk(g, p, node)
    ensures g.edges[p[|p| - 1]].to == node
    ensures g.Owns(p[..|p| - 1]) && IsWalk(g, p[..|p| - 1], g.edges[p[|p| - 1]].from)
  {
  }

  lemma {:induction false} PrecedesIsTotal(g: Graph, scorer: Scorer, p: seq<nat>, q: seq<nat>, node: nat)
    requires g.Owns(p) && g.Owns(q) && IsWalk(g, p, node) && IsWalk(g, q, node) && p != q
    ensures Precedes(g, scorer, p, q) || Precedes(g, scorer, q, p)
    decreases |p|
  {
    hide WalkCost, IsWalk;
    if p != [] && q != [] && p[|p| - 1] == q[|q| - 1] {
      WalkInit(g, p, node);
      WalkInit(g, q, node);
      if p[..|p| - 1] == q[..|q| - 1] { SameEnds(p, q); }
      PrecedesIsTotal(g, scorer, p[..|p| - 1], q[..|q| - 1], g.edges[p[|p| - 1]].from);
    }
  }

  /** The order is total: of two different walks to one node one is better. */
  lemma OrderIsTotal(g: Graph, scorer: Scorer, p: seq<nat>, q: seq<nat>, node: nat)
    requires g.Owns(p) && g.Owns(q) && IsWalk(g, p, node) && IsWalk(g, q, node) && p != q
    ensures Better(g, scorer, p, q) || Better(g, scorer, q, p)
  {
    hide WalkCost, Precedes, IsWalk;
    PrecedesIsTotal(g, scorer, p, q, node);
  }

  lemma {:induction false} PrecedesIsIrreflexive(g: Graph, scorer: Scorer, p: seq<nat>)
    requires g.Owns(p)
    ensures !Precedes(g, scorer, p, p)
    decreases |p|
  {
    if p != [] {
      PrecedesIsIrreflexive(g, scorer, p[..|p| - 1]);
    }
  }

  // ---- the beam loses nothing ----

  lemma CostsAreOrdered()
    ensures TotalPreorder(Cheaper)
  {
  }

  lemma {:induction false} CollectMember(g: Graph, scorer: Scorer, w: Width, node: nat, states: seq<nat>, p: Path)
    requires g.Valid()
    requires g.Current(node, states)
    ensures p in Collect(g, scorer, w, node, states) <==>
            exists s: nat :: s in states && p in Ranked(g, scorer, w, s)
    decreases |states|
  {
    if states != [] {
      var last := |states| - 1;
      assert states[last] in states;
      CollectMember(g, scorer, w, node, states[..last], p);
      assert states == states[..last] + [states[last]];
    }
  }

  lemma MapMember<S, T>(f: S -> T, xs: seq<S>, x: S)
    requires x in xs
    ensures f(x) in Map(f, xs)
  {
    var i :| 0 <= i < |xs| && xs[i] == x;
    assert Map(f, xs)[i] == f(x);
  }

  /** Where a generated path came from. */
  lemma GeneratedFrom(g: Graph, scorer: Scorer, w: Width, e: nat, p: Path) returns (state: nat, q: Path)
    requires g.Valid() && e < |g.edges| && p in Generated(g, scorer, w, e)
    ensures state <= |g.edges| && g.Node(state) == g.edges[e].from
    ensures q in Ranked(g, scorer, w, state) && p == Extend(g, scorer, e, q)
  {
    var from := g.edges[e].from;
    var states := g.StatesAt(from);
    var all := Collect(g, scorer, w, from, states);
    var i :| 0 <= i < |Generated(g, scorer, w, e)| && Generated(g, scorer, w, e)[i] == p;
    q := all[i];
    CollectMember(g, scorer, w, from, states, q);
    state :| state in states && q in Ranked(g, scorer, w, state);
  }

  lemma ExtendWalk(g: Graph, scorer: Scorer, e: nat, q: Path)
    requires e < |g.edges| && IsPathTo(g, scorer, q, g.edges[e].from)
    ensures IsPathTo(g, scorer, Extend(g, scorer, e, q), g.edges[e].to)
    ensures StateOf(Extend(g, scorer, e, q).edges) == e + 1
  {
    var p := Extend(g, scorer, e, q);
    assert p.edges[..|p.edges| - 1] == q.edges;
  }

  lemma CutMember(w: Width, xs: seq<Path>, p: Path)
    requires p in Cut(w, xs)
    ensures p in xs
  {
  }

  /** Everything ranked in a state is a walk that arrives by that state, at its true cost. */
  lemma {:induction false} RankedSound(g: Graph, scorer: Scorer, w: Width, state: nat, p: Path)
    requires g.Valid() && state <= |g.edges| && p in Ranked(g, scorer, w, state)
    ensures IsPathTo(g, scorer, p, g.Node(state)) && StateOf(p.edges) == state
    decreases g.Node(state)
  {
    if state == 0 {
      CutMember(w, [Path(0, [])], p);
    } else {
      var e := state - 1;
      CutMember(w, Sort(Cheaper, Generated(g, scorer, w, e)), p);
      SortMembers(Cheaper, Generated(g, scorer, w, e));
      var s, q := GeneratedFrom(g, scorer, w, e, p);
      RankedSound(g, scorer, w, s, q);
      ExtendWalk(g, scorer, e, q);
    }
  }

  lemma GeneratedReaches(g: Graph, scorer: Scorer, e: nat, state: nat, q: Path)
    requires g.Valid() && e < |g.edges|
    requires state <= |g.edges| && g.Node(state) == g.edges[e].from
    requires q in Ranked(g, scorer, Unbounded, state)
    ensures Extend(g, scorer, e, q) in Ranked(g, scorer, Unbounded, e + 1)
  {
    var from := g.edges[e].from;
    CollectMember(g, scorer, Unbounded, from, g.StatesAt(from), q);
    var ext := Along(g, scorer, e);
    MapMember(ext, Collect(g, scorer, Unbounded, from, g.StatesAt(from)), q);
    SortMembers(Cheaper, Generated(g, scorer, Unbounded, e));
  }

  lemma {:induction false} WalkIsOwned(g: Graph, path: seq<nat>, node: nat)
    requires IsWalk(g, path, node)
    ensures g.Owns(path)
    decreases |path|
  {
    if path != [] {
      WalkIsOwned(g, path[..|path| - 1], g.edges[path[|path| - 1]].from);
    }
  }

  /** Every walk is ranked, with its cost, when nothing is cut. */
  lemma {:induction false} RankedComplete(g: Graph, scorer: Scorer, path: seq<nat>, node: nat)
    requires g.Valid() && IsWalk(g, path, node)
    ensures g.Owns(path) && StateOf(path) <= |g.edges| && g.Node(StateOf(path)) == node
    ensures Path(WalkCost(g, scorer, path), path) in Ranked(g, scorer, Unbounded, StateOf(path))
    decreases |path|
  {
    hide *;
    WalkIsOwned(g, path, node);
    if path == [] {
      WalkStarts(g, path, node);
      StartIsRanked(g, scorer, path);
    } else {
      var init, e := path[..|path| - 1], path[|path| - 1];
      WalkInit(g, path, node);
      RankedComplete(g, scorer, init, g.edges[e].from);
      assert path == init + [e];
      StepIsRanked(g, scorer, init, e);
    }
  }

  lemma StepIsRanked(g: Graph, scorer: Scorer, init: seq<nat>, e: nat)
    requires g.Valid() && e < |g.edges| && g.Owns(init)
    requires StateOf(init) <= |g.edges| && g.Node(StateOf(init)) == g.edges[e].from
    requires Path(WalkCost(g, scorer, init), init) in Ranked(g, scorer, Unbounded, StateOf(init))
    ensures g.Owns(init + [e]) && StateOf(init + [e]) == e + 1 && g.Node(e + 1) == g.edges[e].to
    ensures Path(WalkCost(g, scorer, init + [e]), init + [e]) in Ranked(g, scorer, Unbounded, e + 1)
  {
    hide Ranked, Extend, WalkCost;
    GeneratedReaches(g, scorer, e, StateOf(init), Path(WalkCost(g, scorer, init), init));
    WalkExtends(g, scorer, init, e);
  }

  lemma WalkStarts(g: Graph, path: seq<nat>, node: nat)
    requires path == [] && IsWalk(g, path, node)
    ensures StateOf(path) == 0 == g.Node(0) && node == 0
  {
  }

  lemma StartIsRanked(g: Graph, scorer: Scorer, path: seq<nat>)
    requires g.Valid() && path == []
    ensures Path(WalkCost(g, scorer, path), path) in Ranked(g, scorer, Unbounded, StateOf(path))
  {
  }

  lemma WalkExtends(g: Graph, scorer: Scorer, init: seq<nat>, e: nat)
    requires g.Owns(init) && e < |g.edges|
    ensures g.Owns(init + [e])
    ensures Extend(g, scorer, e, Path(WalkCost(g, scorer, init), init)) ==
      Path(WalkCost(g, scorer, init + [e]), init + [e])
  {
    assert (init + [e])[..|init|] == init;
  }

  lemma RankedIsSorted(g: Graph, scorer: Scorer, state: nat)
    requires g.Valid() && state <= |g.edges|
    ensures Sorted(Cheaper, Ranked(g, scorer, Unbounded, state))
  {
    CostsAreOrdered();
    if state != 0 { SortSorts(Cheaper, Generated(g, scorer, Unbounded, state - 1)); }
  }

  lemma ExtendKeepsOrder(g: Graph, scorer: Scorer, e: nat, p: Path, q: Path)
    requires e < |g.edges| && StateOf(p.edges) == StateOf(q.edges) && Cheaper(p, q)
    ensures Cheaper(Extend(g, scorer, e, p), Extend(g, scorer, e, q))
  {
    assert g.LastEdge(p.edges) == g.LastEdge(q.edges);
  }

  /** The extensions of one state's ranking along one edge are again ranked: all of them arrive
      by the same edge, so they pay the same step, and saturation is monotone. */
  lemma ExtensionsStaySorted(g: Graph, scorer: Scorer, e: nat, state: nat)
    requires g.Valid() && e < |g.edges| && state <= |g.edges|
    ensures Sorted(Cheaper, Map(Along(g, scorer, e), Ranked(g, scorer, Unbounded, state)))
  {
    var xs := Ranked(g, scorer, Unbounded, state);
    var ext := Along(g, scorer, e);
    RankedIsSorted(g, scorer, state);
    forall i, j | 0 <= i < j < |xs|
      ensures Cheaper(Map(ext, xs)[i], Map(ext, xs)[j])
    {
      RankedSound(g, scorer, Unbounded, state, xs[i]);
      RankedSound(g, scorer, Unbounded, state, xs[j]);
      ExtendKeepsOrder(g, scorer, e, xs[i], xs[j]);
    }
  }

  lemma MapTake<S, T>(f: S -> T, k: nat, xs: seq<S>)
    ensures Map(f, Take(k, xs)) == Take(k, Map(f, xs))
  {
  }

  lemma {:induction false} BeamCollect(g: Graph, scorer: Scorer, k: nat, e: nat, node: nat, states: seq<nat>)
    requires g.Valid() && e < |g.edges|
    requires g.Current(node, states)
    requires forall s: nat :: s in states ==>
               Ranked(g, scorer, AtMost(k), s) == Take(k, Ranked(g, scorer, Unbounded, s))
    ensures Take(k, Sort(Cheaper, Map(Along(g, scorer, e), Collect(g, scorer, AtMost(k), node, states))))
         == Take(k, Sort(Cheaper, Map(Along(g, scorer, e), Collect(g, scorer, Unbounded, node, states))))
    decreases |states|
  {
    if states != [] {
      var init, s := states[..|states| - 1], states[|states| - 1];
      assert s in states;
      var ext := Along(g, scorer, e);
      var beam, full := Collect(g, scorer, AtMost(k), node, init), Collect(g, scorer, Unbounded, node, init);
      BeamCollect(g, scorer, k, e, node, init);
      MapAppend(ext, beam, Ranked(g, scorer, AtMost(k), s));
      MapAppend(ext, full, Ranked(g, scorer, Unbounded, s));
      MapTake(ext, k, Ranked(g, scorer, Unbounded, s));
      CostsAreOrdered();
      ExtensionsStaySorted(g, scorer, e, s);
      TruncationIsExact(Cheaper, k, Map(ext, full), Map(ext, beam), Map(ext, Ranked(g, scorer, Unbounded, s)));
    }
  }

  /** A beam of width `k` per state keeps exactly the first `k` of the full ranking. */
  lemma {:induction false} BeamIsExact(g: Graph, scorer: Scorer, k: nat, state: nat)
    requires g.Valid() && state <= |g.edges|
    ensures Ranked(g, scorer, AtMost(k), state) == Take(k, Ranked(g, scorer, Unbounded, state))
    decreases g.Node(state)
  {
    if state != 0 {
      var e := state - 1;
      var from := g.edges[e].from;
      forall s: nat | s in g.StatesAt(from)
        ensures Ranked(g, scorer, AtMost(k), s) == Take(k, Ranked(g, scorer, Unbounded, s))
      {
        BeamIsExact(g, scorer, k, s);
      }
      BeamCollect(g, scorer, k, e, from, g.StatesAt(from));
    }
  }

  lemma {:induction false} BeamFinalists(g: Graph, scorer: Scorer, k: nat, node: nat, states: seq<nat>)
    requires g.Valid()
    requires g.Current(node, states)
    ensures Take(k, Sort(Cheaper, Collect(g, scorer, AtMost(k), node, states)))
         == Take(k, Sort(Cheaper, Collect(g, scorer, Unbounded, node, states)))
    decreases |states|
  {
    if states != [] {
      var init, s := states[..|states| - 1], states[|states| - 1];
      assert s in states;
      BeamFinalists(g, scorer, k, node, init);
      BeamIsExact(g, scorer, k, s);
      CostsAreOrdered();
      RankedIsSorted(g, scorer, s);
      TruncationIsExact(Cheaper, k, Collect(g, scorer, Unbounded, node, init),
          Collect(g, scorer, AtMost(k), node, init),
                        Ranked(g, scorer, Unbounded, s));
    }
  }

  // ---- the ranking is the decoder's order ----

  /** `Precedes` on paths whose edges exist; false elsewhere, so that it is total. */
  ghost predicate GeneratedFirst(g: Graph, scorer: Scorer, p: Path, q: Path) {
    && g.Owns(p.edges)
    && g.Owns(q.edges)
    && Precedes(g, scorer, p.edges, q.edges)
  }

  ghost function Init(p: Path): Path {
    if p.edges == [] then p else p.(edges := p.edges[..|p.edges| - 1])
  }

  /** Every earlier path is generated before every later one. */
  ghost predicate InOrder(g: Graph, scorer: Scorer, xs: seq<Path>) {
    forall i, j :: 0 <= i < j < |xs| ==> GeneratedFirst(g, scorer, xs[i], xs[j])
  }

  lemma AppendInOrder(g: Graph, scorer: Scorer, xs: seq<Path>, ys: seq<Path>)
    requires InOrder(g, scorer, xs) && InOrder(g, scorer, ys)
    requires forall x, y :: x in xs && y in ys ==> GeneratedFirst(g, scorer, x, y)
    ensures InOrder(g, scorer, xs + ys)
  {
    hide GeneratedFirst;
  }

  /** A path of an earlier state comes before a path of a later one. */
  lemma StatesInOrder(g: Graph, scorer: Scorer, s: nat, x: Path, t: nat, y: Path)
    requires g.Valid() && s < t <= |g.edges|
    requires x in Ranked(g, scorer, Unbounded, s) && y in Ranked(g, scorer, Unbounded, t)
    ensures GeneratedFirst(g, scorer, x, y)
  {
    hide Ranked, WalkCost, IsWalk;
    RankedSound(g, scorer, Unbounded, s, x);
    RankedSound(g, scorer, Unbounded, t, y);
  }

  lemma {:induction false} CollectInOrder(g: Graph, scorer: Scorer, node: nat, states: seq<nat>)
    requires g.Valid() && g.Current(node, states)
    requires forall i, j :: 0 <= i < j < |states| ==> states[i] < states[j]
    requires forall s: nat :: s in states ==> InOrder(g, scorer, Ranked(g, scorer, Unbounded, s))
    ensures InOrder(g, scorer, Collect(g, scorer, Unbounded, node, states))
    decreases |states|
  {
    hide Ranked, GeneratedFirst;
    if states != [] {
      hide InOrder;
      var init, s := states[..|states| - 1], states[|states| - 1];
      assert s in states;
      CollectInOrder(g, scorer, node, init);
      var a, b := Collect(g, scorer, Unbounded, node, init), Ranked(g, scorer, Unbounded, s);
      forall x, y | x in a && y in b
        ensures GeneratedFirst(g, scorer, x, y)
      {
        CollectMember(g, scorer, Unbounded, node, init, x);
        var t: nat :| t in init && x in Ranked(g, scorer, Unbounded, t);
        StatesInOrder(g, scorer, t, x, s, y);
      }
      AppendInOrder(g, scorer, a, b);
    }
  }

  ghost function PrefixTie(g: Graph, scorer: Scorer): (tie: (Path, Path) -> bool) {
    (p, q) => GeneratedFirst(g, scorer, Init(p), Init(q))
  }

  lemma ExtensionPrefix(g: Graph, scorer: Scorer, e: nat, p: Path)
    requires e < |g.edges|
    ensures Init(Extend(g, scorer, e, p)).edges == p.edges
  {
  }

  lemma GeneratedInOrder(g: Graph, scorer: Scorer, e: nat, i: nat, j: nat)
    requires g.Valid() && e < |g.edges| && i < j < |Generated(g, scorer, Unbounded, e)|
    requires InOrder(g, scorer, Collect(g, scorer, Unbounded, g.edges[e].from, g.StatesAt(g.edges[e].from)))
    ensures PrefixTie(g, scorer)(Generated(g, scorer, Unbounded, e)[i], Generated(g, scorer, Unbounded, e)[j])
  {
    hide Collect, Precedes, Init, Extend;
    var xs := Collect(g, scorer, Unbounded, g.edges[e].from, g.StatesAt(g.edges[e].from));
    ExtensionPrefix(g, scorer, e, xs[i]);
    ExtensionPrefix(g, scorer, e, xs[j]);
    assert GeneratedFirst(g, scorer, xs[i], xs[j]);
  }

  lemma PairwiseTie(g: Graph, scorer: Scorer, e: nat)
    requires g.Valid() && e < |g.edges|
    requires InOrder(g, scorer, Collect(g, scorer, Unbounded, g.edges[e].from, g.StatesAt(g.edges[e].from)))
    ensures Pairwise(PrefixTie(g, scorer), Generated(g, scorer, Unbounded, e))
  {
    hide PrefixTie, InOrder, Generated, Collect;
    var ys := Generated(g, scorer, Unbounded, e);
    forall i, j | 0 <= i < j < |ys|
      ensures PrefixTie(g, scorer)(ys[i], ys[j])
    {
      GeneratedInOrder(g, scorer, e, i, j);
    }
  }

  /** Inside one state: the cheaper path first, and on equal cost the one whose prefix was generated first. */
  lemma RankedPair(g: Graph, scorer: Scorer, state: nat, p: Path, q: Path)
    requires g.Valid() && 0 < state <= |g.edges|
    requires p in Ranked(g, scorer, Unbounded, state) && q in Ranked(g, scorer, Unbounded, state)
    requires ByKeyThen(Cheaper, PrefixTie(g, scorer))(p, q)
    ensures GeneratedFirst(g, scorer, p, q)
  {
    hide Ranked, IsWalk, WalkCost;
    ByKeyThenIs(Cheaper, PrefixTie(g, scorer), p, q);
    RankedSound(g, scorer, Unbounded, state, p);
    RankedSound(g, scorer, Unbounded, state, q);
  }

  lemma {:induction false} RankedInOrder(g: Graph, scorer: Scorer, state: nat)
    requires g.Valid() && state <= |g.edges|
    ensures InOrder(g, scorer, Ranked(g, scorer, Unbounded, state))
    decreases g.Node(state)
  {
    hide Generated, GeneratedFirst, PrefixTie, ByKeyThen;
    if state != 0 {
      var e := state - 1;
      var from := g.edges[e].from;
      forall s: nat | s in g.StatesAt(from)
        ensures InOrder(g, scorer, Ranked(g, scorer, Unbounded, s))
      {
        RankedInOrder(g, scorer, s);
      }
      CollectInOrder(g, scorer, from, g.StatesAt(from));
      PairwiseTie(g, scorer, e);
      CostsAreOrdered();
      SortBreaksTies(Cheaper, PrefixTie(g, scorer), Generated(g, scorer, Unbounded, e));
      var zs := Ranked(g, scorer, Unbounded, state);
      forall i, j | 0 <= i < j < |zs|
        ensures GeneratedFirst(g, scorer, zs[i], zs[j])
      {
        assert ByKeyThen(Cheaper, PrefixTie(g, scorer))(zs[i], zs[j]);
        RankedPair(g, scorer, state, zs[i], zs[j]);
      }
    }
  }

  /** `p` ranks before `q`; since the order is irreflexive they differ. */
  ghost predicate InRank(g: Graph, scorer: Scorer, p: Path, q: Path) {
    p != q && g.Owns(p.edges) && g.Owns(q.edges) && Better(g, scorer, p.edges, q.edges)
  }

  lemma AllPathsAreWalks(g: Graph, scorer: Scorer, target: nat, p: Path)
    requires g.Valid()
    ensures p in AllPaths(g, scorer, target) <==> IsPathTo(g, scorer, p, target)
  {
    hide Ranked, Collect, IsPathTo, Cheaper;
    var states := g.StatesAt(target);
    SortMembers(Cheaper, Collect(g, scorer, Unbounded, target, states));
    CollectMember(g, scorer, Unbounded, target, states, p);
    if p in AllPaths(g, scorer, target) {
      var s: nat :| s in states && p in Ranked(g, scorer, Unbounded, s);
      RankedSound(g, scorer, Unbounded, s, p);
    }
    if IsPathTo(g, scorer, p, target) {
      WalkIsRanked(g, scorer, p, target);
      assert StateOf(p.edges) in states;
    }
  }

  lemma WalkIsRanked(g: Graph, scorer: Scorer, p: Path, target: nat)
    requires g.Valid() && IsPathTo(g, scorer, p, target)
    ensures StateOf(p.edges) <= |g.edges| && g.Node(StateOf(p.edges)) == target
      && p in Ranked(g, scorer, Unbounded, StateOf(p.edges))
  {
    hide Ranked, WalkCost, IsWalk, StateOf;
    RankedComplete(g, scorer, p.edges, target);
  }

  ghost function GenerationTie(g: Graph, scorer: Scorer): (tie: (Path, Path) -> bool) {
    (p, q) => GeneratedFirst(g, scorer, p, q)
  }

  lemma RankOfPair(g: Graph, scorer: Scorer, target: nat, p: Path, q: Path)
    requires IsPathTo(g, scorer, p, target) && IsPathTo(g, scorer, q, target)
    requires ByKeyThen(Cheaper, GenerationTie(g, scorer))(p, q)
    ensures InRank(g, scorer, p, q)
  {
    hide IsWalk, WalkCost, Precedes;
    ByKeyThenIs(Cheaper, GenerationTie(g, scorer), p, q);
    PrecedesIsIrreflexive(g, scorer, p.edges);
  }

  lemma AllPathsTies(g: Graph, scorer: Scorer, target: nat)
    requires g.Valid()
    ensures Pairwise(ByKeyThen(Cheaper, GenerationTie(g, scorer)), AllPaths(g, scorer, target))
  {
    hide Ranked, Collect, GeneratedFirst, ByKeyThen, Cheaper;
    var states := g.StatesAt(target);
    forall s: nat | s in states
      ensures InOrder(g, scorer, Ranked(g, scorer, Unbounded, s))
    {
      RankedInOrder(g, scorer, s);
    }
    CollectInOrder(g, scorer, target, states);
    CostsAreOrdered();
    assert Pairwise(GenerationTie(g, scorer), Collect(g, scorer, Unbounded, target, states));
    SortBreaksTies(Cheaper, GenerationTie(g, scorer), Collect(g, scorer, Unbounded, target, states));
  }

  /** The full ranking lists exactly the walks to the target, each with its cost and each once, in the decoder's
      order. */
  lemma AllPathsExact(g: Graph, scorer: Scorer, target: nat)
    requires g.Valid()
    ensures forall p :: p in AllPaths(g, scorer, target) <==> IsPathTo(g, scorer, p, target)
    ensures forall i, j :: 0 <= i < j < |AllPaths(g, scorer, target)| ==>
              InRank(g, scorer, AllPaths(g, scorer, target)[i], AllPaths(g, scorer, target)[j])
  {
    hide AllPaths, IsPathTo, InRank, ByKeyThen, GenerationTie, Cheaper;
    var all := AllPaths(g, scorer, target);
    forall p
      ensures p in all <==> IsPathTo(g, scorer, p, target)
    {
      AllPathsAreWalks(g, scorer, target, p);
    }
    AllPathsTies(g, scorer, target);
    forall i, j | 0 <= i < j < |all|
      ensures InRank(g, scorer, all[i], all[j])
    {
      assert ByKeyThen(Cheaper, GenerationTie(g, scorer))(all[i], all[j]);
      RankOfPair(g, scorer, target, all[i], all[j]);
    }
  }
}
