/** The k-best sweep over a segment graph, with its arena, buckets and backpointers. */
module KBest {
  import opened Outcomes
  import opened Sequences
  import opened Sorting
  import opened SegmentGraph
  import IncomingIndex

  const MAX_K := 4096
  const U32_COUNT := 0x1_0000_0000

  datatype DecodeError = KTooLarge(k: nat) | TooManyEdges(edges: nat) | TooManyEntries(k: nat)

  /** One partial path: its cost and, except for the start, the edge that ended it and the entry
      it extends. */
  datatype Entry = Root(cost: Cost) | Link(cost: Cost, last: nat, previous: nat)

  datatype Sweep = Sweep(arena: seq<Entry>, buckets: seq<seq<nat>>)

  // ---- the arena ----

  ghost predicate ArenaValid(arena: seq<Entry>) {
    forall i :: 0 <= i < |arena| && arena[i].Link? ==> arena[i].previous < i
  }

  /** The path an entry stands for, through its backpointers. */
  ghost function Trace(arena: seq<Entry>, i: nat): (p: Path)
    requires ArenaValid(arena)
    decreases i
  {
    if i >= |arena| then Path(0, [])
    else Path(arena[i].cost, if arena[i].Root? then [] else Trace(arena, arena[i].previous).edges + [arena[i].last])
  }

  ghost function Tracer(arena: seq<Entry>): (f: nat -> Path)
    requires ArenaValid(arena)
    ensures forall i: nat :: f(i) == Trace(arena, i)
  {
    (i: nat) => Trace(arena, i)
  }

  /** The entries of `bucket` stand for the paths `ps`, in order. */
  ghost predicate Shows(arena: seq<Entry>, bucket: seq<nat>, ps: seq<Path>)
    requires ArenaValid(arena)
  {
    && |bucket| == |ps|
    && forall i :: 0 <= i < |bucket| ==> bucket[i] < |arena| && Trace(arena, bucket[i]) == ps[i]
  }

  lemma {:induction false} TraceIsStable(arena: seq<Entry>, more: seq<Entry>, i: nat)
    requires ArenaValid(arena) && ArenaValid(more) && arena <= more && i < |arena|
    ensures Trace(more, i) == Trace(arena, i)
    decreases i
  {
    if arena[i].Link? {
      TraceIsStable(arena, more, arena[i].previous);
    }
  }

  /** Walks the backpointers of one entry into a path in input order. */
  method Reconstruct(arena: seq<Entry>, index: nat) returns (p: Path)
    requires ArenaValid(arena) && index < |arena|
    ensures p == Trace(arena, index)
  {
    var edges: seq<nat> := [];
    var cursor: Option<nat> := Some(index);
    while cursor.Some?
      invariant cursor.Some? ==> cursor.value < |arena|
      invariant Trace(arena, index).edges
             == (if cursor.Some? then Trace(arena, cursor.value).edges else []) + Reversed(edges)
      decreases if cursor.Some? then cursor.value + 1 else 0
    {
      var entry := arena[cursor.value];
      if entry.Link? {
        ReversedSnoc(edges, entry.last);
        edges := edges + [entry.last];
      }
      cursor := if entry.Link? then Some(entry.previous) else None;
    }
    p := Path(arena[index].cost, Reversed(edges));
  }

  // ---- what the buckets hold during the sweep ----

  /** The content of one bucket once the states of nodes below `ranked` are ranked and the
      nodes below `extended` are extended. */
  ghost function Expected(g: Graph, scorer: Scorer, k: nat, target: nat, ranked: nat, extended: nat,
                          state: nat): (ps: seq<Path>)
    requires g.Valid() && state <= |g.edges|
  {
    if state == 0 then [Path(0, [])]
    else if g.Node(state) > target || g.edges[state - 1].from >= extended then []
    else if g.Node(state) < ranked then Ranked(g, scorer, AtMost(k), state)
    else Generated(g, scorer, AtMost(k), state - 1)
  }

  ghost predicate Holds(g: Graph, arena: seq<Entry>, buckets: seq<seq<nat>>, expected: seq<seq<Path>>) {
    && ArenaValid(arena)
    && |buckets| == |expected| == |g.edges| + 1
    && (forall s :: 0 <= s < |buckets| ==> Shows(arena, buckets[s], expected[s]))
  }

  ghost function AllExpected(g: Graph, scorer: Scorer, k: nat, target: nat, ranked: nat,
                             extended: nat): (r: seq<seq<Path>>)
    requires g.Valid()
    ensures |r| == |g.edges| + 1
  {
    seq(|g.edges| + 1, s requires 0 <= s < |g.edges| + 1 => Expected(g, scorer, k, target, ranked, extended, s))
  }

  function Total(xs: seq<seq<Path>>): (n: nat) {
    if xs == [] then 0 else |xs[0]| + Total(xs[1..])
  }

  lemma {:induction false} TotalAt(xs: seq<seq<Path>>, i: nat, ys: seq<Path>)
    requires i < |xs|
    ensures Total(xs[i := ys]) == Total(xs) - |xs[i]| + |ys|
  {
    if i == 0 {
      assert xs[0 := ys] == [ys] + xs[1..];
    } else {
      assert xs[i := ys] == [xs[0]] + xs[1..][i - 1 := ys];
      TotalAt(xs[1..], i - 1, ys);
    }
  }

  lemma {:induction false} TotalMonotone(xs: seq<seq<Path>>, ys: seq<seq<Path>>)
    requires |xs| == |ys| && forall i :: 0 <= i < |xs| ==> |xs[i]| <= |ys[i]|
    ensures Total(xs) <= Total(ys)
  {
    if xs != [] {
      TotalMonotone(xs[1..], ys[1..]);
    }
  }

  /** The entries a sweep to `target` generates, the start included. */
  ghost function SearchSize(g: Graph, scorer: Scorer, k: nat, target: nat): (n: nat)
    requires g.Valid()
  {
    Total(AllExpected(g, scorer, k, target, 0, target))
  }

  // ---- ranking the states of one node ----

  function CostAt(arena: seq<Entry>, i: nat): (c: Cost) {
    if i < |arena| then arena[i].cost else 0
  }

  function ByCost(arena: seq<Entry>): (le: (nat, nat) -> bool) {
    (i: nat, j: nat) => CostAt(arena, i) <= CostAt(arena, j)
  }

  lemma RankingShows(arena: seq<Entry>, k: nat, bucket: seq<nat>, ps: seq<Path>)
    requires ArenaValid(arena) && Shows(arena, bucket, ps)
    ensures Shows(arena, Take(k, Sort(ByCost(arena), bucket)), Take(k, Sort(Cheaper, ps)))
  {
    forall x: nat, y: nat
      ensures ByCost(arena)(x, y) == Cheaper(Tracer(arena)(x), Tracer(arena)(y))
    {
      assert CostAt(arena, x) == Trace(arena, x).cost && CostAt(arena, y) == Trace(arena, y).cost;
    }
    assert ps == Map(Tracer(arena), bucket);
    SortOfMap<nat, Path>(Tracer(arena), Cheaper, ByCost(arena), bucket);
    var r := Sort(ByCost(arena), bucket);
    SortMembers(ByCost(arena), bucket);
    forall i | 0 <= i < |r|
      ensures r[i] < |arena|
    {
      assert r[i] in bucket;
    }
  }

  lemma RankingStep(g: Graph, scorer: Scorer, k: nat, target: nat, n: nat, state: nat)
    requires g.Valid() && state <= |g.edges| && g.Node(state) == n <= target && k > 0
    ensures Take(k, Sort(Cheaper, Expected(g, scorer, k, target, n, n, state)))
         == Expected(g, scorer, k, target, n + 1, n, state)
  {
  }

  lemma RankHolds(g: Graph, arena: seq<Entry>, buckets: seq<seq<nat>>, expected: seq<seq<Path>>, k: nat, state: nat)
    requires Holds(g, arena, buckets, expected) && state < |buckets|
    ensures Holds(g, arena, buckets[state := Take(k, Sort(ByCost(arena), buckets[state]))],
                  expected[state := Take(k, Sort(Cheaper, expected[state]))])
  {
    RankingShows(arena, k, buckets[state], expected[state]);
  }

  /** The buckets while `node` is being ranked: the states in `done` are. */
  ghost function Ranking(g: Graph, scorer: Scorer, k: nat, target: nat, node: nat, done: seq<nat>): (r: seq<seq<Path>>)
    requires g.Valid()
    ensures |r| == |g.edges| + 1
  {
    seq(|g.edges| + 1, s requires 0 <= s < |g.edges| + 1 =>
      Expected(g, scorer, k, target, if s in done then node + 1 else node, node, s))
  }

  lemma RankingSteps(g: Graph, scorer: Scorer, k: nat, target: nat, node: nat, states: seq<nat>, i: nat)
    requires g.Valid() && k > 0 && node <= target && i < |states| && g.Current(node, states)
    requires forall j :: 0 <= j < i ==> states[j] < states[i]
    ensures var now := Ranking(g, scorer, k, target, node, states[..i]);
            Ranking(g, scorer, k, target, node, states[..i + 1])
            == now[states[i] := Take(k, Sort(Cheaper, now[states[i]]))]
  {
    RankingStep(g, scorer, k, target, node, states[i]);
    assert states[i] !in states[..i] && states[..i + 1] == states[..i] + [states[i]];
  }

  lemma RankingEnds(g: Graph, scorer: Scorer, k: nat, target: nat, node: nat)
    requires g.Valid()
    ensures Ranking(g, scorer, k, target, node, []) == AllExpected(g, scorer, k, target, node, node)
    ensures Ranking(g, scorer, k, target, node, g.StatesAt(node)) == AllExpected(g, scorer, k, target, node + 1, node)
  {
    forall s: nat | s <= |g.edges|
      ensures s in g.StatesAt(node) <==> g.Node(s) == node
    {
    }
  }

  /** Sorts and truncates the bucket of every state at `node`. */
  method RankNode(g: Graph, x: IncomingIndex.Incoming, ghost scorer: Scorer, k: nat, ghost target: nat, node: nat,
                  arena: seq<Entry>, buckets: seq<seq<nat>>)
    returns (r: seq<seq<nat>>)
    requires g.Valid() && IncomingIndex.Indexes(g, x) && k > 0 && node <= target
    requires Holds(g, arena, buckets, AllExpected(g, scorer, k, target, node, node))
    ensures Holds(g, arena, r, AllExpected(g, scorer, k, target, node + 1, node))
  {
    hide IncomingIndex.Indexes;
    r := buckets;
    var states := IncomingIndex.StatesAt(g, x, node);
    RankingEnds(g, scorer, k, target, node);
    for i := 0 to |states|
      invariant Holds(g, arena, r, Ranking(g, scorer, k, target, node, states[..i]))
    {
      var state := states[i];
      RankHolds(g, arena, r, Ranking(g, scorer, k, target, node, states[..i]), k, state);
      RankingSteps(g, scorer, k, target, node, states, i);
      r := r[state := Take(k, Sort(ByCost(arena), r[state]))];
    }
    assert states[..|states|] == states;
  }

  // ---- extending the entries of one node ----

  /** State `s` is an edge that leaves `node` and stays within the target. */
  ghost predicate Leaves(g: Graph, target: nat, node: nat, s: nat) {
    0 < s <= |g.edges| && g.edges[s - 1].from == node && g.edges[s - 1].to <= target
  }

  /** The buckets while `node` is being extended: `done` has gone along every edge, `extra` along
      the edges below `bound`. */
  ghost function Midway(g: Graph, scorer: Scorer, target: nat, node: nat, base: seq<seq<Path>>,
                        done: seq<Path>, extra: seq<Path>, bound: nat): (r: seq<seq<Path>>)
    requires |base| == |g.edges| + 1
    ensures |r| == |base|
  {
    seq(|base|, s requires 0 <= s < |base| =>
      if Leaves(g, target, node, s)
      then Map(Along(g, scorer, s - 1), if s - 1 < bound then done + extra else done)
      else base[s])
  }

  ghost function Pushed(xs: seq<seq<Path>>, i: nat, p: Path): (r: seq<seq<Path>>)
    requires i < |xs|
    ensures |r| == |xs|
  {
    xs[i := xs[i] + [p]]
  }

  lemma MidwaySkips(g: Graph, scorer: Scorer, target: nat, node: nat, base: seq<seq<Path>>,
                    done: seq<Path>, cur: Path, e: nat)
    requires |base| == |g.edges| + 1 && e < |g.edges| && !Leaves(g, target, node, e + 1)
    ensures Midway(g, scorer, target, node, base, done, [cur], e + 1) ==
      Midway(g, scorer, target, node, base, done, [cur], e)
  {
  }

  lemma MidwayPushes(g: Graph, scorer: Scorer, target: nat, node: nat, base: seq<seq<Path>>,
                     done: seq<Path>, cur: Path, e: nat)
    requires |base| == |g.edges| + 1 && e < |g.edges| && Leaves(g, target, node, e + 1)
    ensures Midway(g, scorer, target, node, base, done, [cur], e + 1)
         == Pushed(Midway(g, scorer, target, node, base, done, [cur], e), e + 1, Extend(g, scorer, e, cur))
  {
    var ext := Along(g, scorer, e);
    MapAppend(ext, done, [cur]);
    assert Map(ext, [cur]) == [Extend(g, scorer, e, cur)];
    var now := Midway(g, scorer, target, node, base, done, [cur], e);
    var next := Midway(g, scorer, target, node, base, done, [cur], e + 1);
    assert next[e + 1] == now[e + 1] + [Extend(g, scorer, e, cur)];
    assert forall s :: 0 <= s < |now| && s != e + 1 ==> next[s] == now[s];
  }

  lemma MidwayOpens(g: Graph, scorer: Scorer, target: nat, node: nat, base: seq<seq<Path>>, done: seq<Path>, cur: Path)
    requires g.Valid() && node < g.nodeCount && |base| == |g.edges| + 1
    ensures Midway(g, scorer, target, node, base, done, [cur], g.starts[node])
         == Midway(g, scorer, target, node, base, done, [], 0)
    ensures Midway(g, scorer, target, node, base, done, [cur], g.starts[node + 1])
         == Midway(g, scorer, target, node, base, done + [cur], [], 0)
  {
    assert done + [] == done;
  }

  /** The entry that extends entry `from` along edge `e`. */
  function Extension(g: Graph, arena: seq<Entry>, scorer: Scorer, e: nat, from: nat): (r: Entry)
    requires e < |g.edges| && from < |arena|
  {
    Link(SaturatingAdd(arena[from].cost, scorer(PreviousEdge(g, arena[from]), g.edges[e])), e, from)
  }

  function PreviousEdge(g: Graph, entry: Entry): (r: Option<Edge>) {
    if entry.Link? && entry.last < |g.edges| then Some(g.edges[entry.last]) else None
  }

  lemma ExtensionTrace(g: Graph, arena: seq<Entry>, scorer: Scorer, e: nat, from: nat)
    requires ArenaValid(arena) && e < |g.edges| && from < |arena|
    ensures ArenaValid(arena + [Extension(g, arena, scorer, e, from)])
    ensures Trace(arena + [Extension(g, arena, scorer, e, from)], |arena|) == Extend(g, scorer, e, Trace(arena, from))
  {
    var more := arena + [Extension(g, arena, scorer, e, from)];
    assert ArenaValid(more);
    TraceIsStable(arena, more, from);
    assert PreviousEdge(g, arena[from]) == g.LastEdge(Trace(arena, from).edges);
  }

  lemma PushedBucket(arena: seq<Entry>, more: seq<Entry>, bucket: seq<nat>, ps: seq<Path>)
    requires ArenaValid(arena) && ArenaValid(more) && arena <= more && |more| == |arena| + 1
    requires Shows(arena, bucket, ps)
    ensures Shows(more, bucket, ps)
    ensures Shows(more, bucket + [|arena|], ps + [Trace(more, |arena|)])
  {
    forall i | 0 <= i < |bucket|
      ensures Trace(more, bucket[i]) == ps[i]
    {
      TraceIsStable(arena, more, bucket[i]);
    }
  }

  /** Pushing one entry appends one path to one bucket and changes no other. */
  lemma PushHolds(g: Graph, arena: seq<Entry>, more: seq<Entry>, buckets: seq<seq<nat>>, expected: seq<seq<Path>>,
                  i: nat, p: Path)
    requires Holds(g, arena, buckets, expected) && i < |buckets|
    requires ArenaValid(more) && arena <= more && |more| == |arena| + 1 && Trace(more, |arena|) == p
    ensures Holds(g, more, buckets[i := buckets[i] + [|arena|]], Pushed(expected, i, p))
  {
    hide Trace;
    hide Shows;
    var r: seq<seq<nat>> := buckets[i := buckets[i] + [|arena|]];
    forall s | 0 <= s < |r|
      ensures Shows(more, r[s], Pushed(expected, i, p)[s])
    {
      PushedBucket(arena, more, buckets[s], expected[s]);
    }
  }

  lemma {:induction false} CollectGrows(g: Graph, scorer: Scorer, w: Width, node: nat, states: seq<nat>, i: nat)
    requires g.Valid() && g.Current(node, states) && i <= |states|
    ensures |Collect(g, scorer, w, node, states[..i])| <= |Collect(g, scorer, w, node, states)|
    decreases |states|
  {
    if i < |states| {
      CollectGrows(g, scorer, w, node, states[..|states| - 1], i);
      assert states[..|states| - 1][..i] == states[..i];
    } else {
      assert states[..i] == states;
    }
  }

  lemma MidwayFits(g: Graph, scorer: Scorer, k: nat, target: nat, node: nat, xs: seq<Path>, s: nat)
    requires g.Valid() && node < target && s <= |g.edges|
    requires |xs| <= |Collect(g, scorer, AtMost(k), node, g.StatesAt(node))|
    ensures Leaves(g, target, node, s) ==>
              |Map(Along(g, scorer, s - 1), xs)| <= |Expected(g, scorer, k, target, 0, target, s)|
    ensures |Expected(g, scorer, k, target, 0, node, s)| <= |Expected(g, scorer, k, target, 0, target, s)|
  {
    if Leaves(g, target, node, s) {
      assert Expected(g, scorer, k, target, 0, target, s) == Generated(g, scorer, AtMost(k), s - 1);
    }
  }

  /** What has been generated at any point is no more than what the whole search generates. */
  lemma TooLarge(g: Graph, scorer: Scorer, k: nat, target: nat, node: nat, done: seq<Path>, cur: Path, bound: nat)
    requires g.Valid() && node < target
    requires |done| < |Collect(g, scorer, AtMost(k), node, g.StatesAt(node))|
    ensures Total(Midway(g, scorer, target, node, AllExpected(g, scorer, k, target, 0, node), done, [cur], bound))
         <= SearchSize(g, scorer, k, target)
  {
    var now := Midway(g, scorer, target, node, AllExpected(g, scorer, k, target, 0, node), done, [cur], bound);
    var all := AllExpected(g, scorer, k, target, 0, target);
    forall s | 0 <= s < |now|
      ensures |now[s]| <= |all[s]|
    {
      MidwayFits(g, scorer, k, target, node, if s - 1 < bound then done + [cur] else done, s);
    }
    TotalMonotone(now, all);
  }

  lemma StartMidway(g: Graph, scorer: Scorer, k: nat, target: nat, ranked: nat, node: nat)
    requires g.Valid()
    ensures Midway(g, scorer, target, node, AllExpected(g, scorer, k, target, ranked, node), [], [], 0)
         == AllExpected(g, scorer, k, target, ranked, node)
  {
    hide Collect, Ranked, Generated, Along;
  }

  lemma EndMidway(g: Graph, scorer: Scorer, k: nat, target: nat, ranked: nat, node: nat)
    requires g.Valid() && ranked <= node + 1
    ensures Midway(g, scorer, target, node, AllExpected(g, scorer, k, target, ranked, node),
                   Collect(g, scorer, AtMost(k), node, g.StatesAt(node)), [], 0)
         == AllExpected(g, scorer, k, target, ranked, node + 1)
  {
    hide Collect, Expected, Along, Leaves;
    var xs := Collect(g, scorer, AtMost(k), node, g.StatesAt(node));
    var base := AllExpected(g, scorer, k, target, ranked, node);
    forall s | 0 <= s < |base|
      ensures Midway(g, scorer, target, node, base, xs, [], 0)[s] ==
        AllExpected(g, scorer, k, target, ranked, node + 1)[s]
    {
      ExtendedState(g, scorer, k, target, ranked, node, s);
    }
  }

  /** A state that leaves `node` then holds the extensions along its edge; every other state is as before. */
  lemma ExtendedState(g: Graph, scorer: Scorer, k: nat, target: nat, ranked: nat, node: nat, s: nat)
    requires g.Valid() && ranked <= node + 1 && s <= |g.edges|
    ensures Leaves(g, target, node, s) ==>
      s > 0 && Expected(g, scorer, k, target, ranked, node + 1, s)
               == Map(Along(g, scorer, s - 1), Collect(g, scorer, AtMost(k), node, g.StatesAt(node)))
    ensures !Leaves(g, target, node, s) ==>
      Expected(g, scorer, k, target, ranked, node + 1, s) == Expected(g, scorer, k, target, ranked, node, s)
  {
    hide Collect, Ranked, Along;
  }

  lemma PushTotals(xs: seq<seq<Path>>, i: nat, p: Path)
    requires i < |xs|
    ensures Total(Pushed(xs, i, p)) == Total(xs) + 1
  {
    TotalAt(xs, i, xs[i] + [p]);
  }

  /** What the buckets hold, and how many entries exist, while a node is extended. */
  ghost predicate Tracks(g: Graph, scorer: Scorer, k: nat, target: nat, node: nat, done: seq<Path>, extra: seq<Path>,
                         bound: nat, w: Sweep)
    requires g.Valid()
  {
    && Holds(g, w.arena, w.buckets,
             Midway(g, scorer, target, node, AllExpected(g, scorer, k, target, node + 1, node), done, extra, bound))
    && |w.arena| ==
        Total(Midway(g, scorer, target, node, AllExpected(g, scorer, k, target, 0, node), done, extra, bound))
    && |w.arena| <= U32_COUNT
  }

  /** Entry `index` stands for `cur` and has gone along the edges below `bound`. */
  ghost predicate Extending(g: Graph, scorer: Scorer, k: nat, target: nat, node: nat, done: seq<Path>, cur: Path,
                            bound: nat,
                            w: Sweep, index: nat)
    requires g.Valid()
  {
    && Tracks(g, scorer, k, target, node, done, [cur], bound, w)
    && index < |w.arena| && Trace(w.arena, index) == cur
  }

  lemma SkipStep(g: Graph, scorer: Scorer, k: nat, target: nat, node: nat, done: seq<Path>, cur: Path, e: nat,
                 w: Sweep, index: nat)
    requires g.Valid() && e < |g.edges| && g.edges[e].to > target
    requires Extending(g, scorer, k, target, node, done, cur, e, w, index)
    ensures Extending(g, scorer, k, target, node, done, cur, e + 1, w, index)
  {
    MidwaySkips(g, scorer, target, node, AllExpected(g, scorer, k, target, node + 1, node), done, cur, e);
    MidwaySkips(g, scorer, target, node, AllExpected(g, scorer, k, target, 0, node), done, cur, e);
  }

  function Push(g: Graph, scorer: Scorer, e: nat, w: Sweep, index: nat): (r: Sweep)
    requires e < |g.edges| && index < |w.arena| && |w.buckets| == |g.edges| + 1
    ensures w.arena <= r.arena
  {
    Sweep(w.arena + [Extension(g, w.arena, scorer, e, index)], w.buckets[e + 1 := w.buckets[e + 1] + [|w.arena|]])
  }

  lemma PushStep(g: Graph, scorer: Scorer, k: nat, target: nat, node: nat, done: seq<Path>, cur: Path, e: nat,
                 w: Sweep, index: nat)
    requires g.Valid() && e < |g.edges| && Leaves(g, target, node, e + 1)
    requires Extending(g, scorer, k, target, node, done, cur, e, w, index)
    ensures |w.arena| < U32_COUNT ==>
              Extending(g, scorer, k, target, node, done, cur, e + 1, Push(g, scorer, e, w, index), index)
    ensures |w.arena| + 1
         == Total(Midway(g, scorer, target, node, AllExpected(g, scorer, k, target, 0, node), done, [cur], e + 1))
  {
    var base, plain := AllExpected(g, scorer, k, target, node + 1, node), AllExpected(g, scorer, k, target, 0, node);
    MidwayPushes(g, scorer, target, node, base, done, cur, e);
    MidwayPushes(g, scorer, target, node, plain, done, cur, e);
    PushTotals(Midway(g, scorer, target, node, plain, done, [cur], e), e + 1, Extend(g, scorer, e, cur));
    ExtensionTrace(g, w.arena, scorer, e, index);
    var more := w.arena + [Extension(g, w.arena, scorer, e, index)];
    TraceIsStable(w.arena, more, index);
    PushHolds(g, w.arena, more, w.buckets, Midway(g, scorer, target, node, base, done, [cur], e), e + 1,
        Extend(g, scorer, e, cur));
  }

  /** Extends one entry along one edge, unless the edge passes the target. */
  method ExtendAlong(g: Graph, scorer: Scorer, k: nat, target: nat, ghost node: nat, index: nat, e: nat, w: Sweep,
                     ghost done: seq<Path>, ghost cur: Path)
    returns (r: Result<Sweep, DecodeError>)
    requires g.Valid() && node < target < g.nodeCount && e < |g.edges| && g.edges[e].from == node
    requires |done| < |Collect(g, scorer, AtMost(k), node, g.StatesAt(node))|
    requires Extending(g, scorer, k, target, node, done, cur, e, w, index)
    ensures r.Ok? ==> w.arena <= r.value.arena
    ensures r.Ok? ==> Extending(g, scorer, k, target, node, done, cur, e + 1, r.value, index)
    ensures r.Err? ==> r.error == TooManyEntries(k) && SearchSize(g, scorer, k, target) > U32_COUNT
  {
    if g.edges[e].to > target {
      SkipStep(g, scorer, k, target, node, done, cur, e, w, index);
      return Ok(w);
    }
    PushStep(g, scorer, k, target, node, done, cur, e, w, index);
    if |w.arena| >= U32_COUNT {
      TooLarge(g, scorer, k, target, node, done, cur, e + 1);
      return Err(TooManyEntries(k));
    }
    r := Ok(Push(g, scorer, e, w, index));
  }

  /** Extends one entry along every edge that leaves its node. */
  method ExtendEntry(g: Graph, scorer: Scorer, k: nat, target: nat, node: nat, index: nat, w: Sweep,
                     ghost done: seq<Path>, ghost cur: Path)
    returns (r: Result<Sweep, DecodeError>)
    requires g.Valid() && node < target < g.nodeCount
    requires |done| < |Collect(g, scorer, AtMost(k), node, g.StatesAt(node))|
    requires Extending(g, scorer, k, target, node, done, cur, g.starts[node], w, index)
    ensures r.Ok? ==> w.arena <= r.value.arena
    ensures r.Ok? ==> Extending(g, scorer, k, target, node, done, cur, g.starts[node + 1], r.value, index)
    ensures r.Err? ==> r.error == TooManyEntries(k) && SearchSize(g, scorer, k, target) > U32_COUNT
  {
    hide Extending;
    hide Collect;
    hide SearchSize;
    r := Ok(w);
    for e := g.starts[node] to g.starts[node + 1]
      invariant r.Ok? && w.arena <= r.value.arena
      invariant Extending(g, scorer, k, target, node, done, cur, e, r.value, index)
    {
      EdgeLeaves(g, node, e);
      r := ExtendAlong(g, scorer, k, target, node, index, e, r.value, done, cur);
      if r.Err? { return; }
    }
  }

  lemma StateShows(g: Graph, scorer: Scorer, k: nat, target: nat, node: nat, state: nat, w: Sweep, done: seq<Path>)
    requires g.Valid() && k > 0 && node < target && state <= |g.edges| && g.Node(state) == node
    requires Tracks(g, scorer, k, target, node, done, [], 0, w)
    ensures state < |w.buckets| && ArenaValid(w.arena)
      && Shows(w.arena, w.buckets[state], Ranked(g, scorer, AtMost(k), state))
  {
    var base := AllExpected(g, scorer, k, target, node + 1, node);
    assert Midway(g, scorer, target, node, base, done, [], 0)[state] == base[state];
  }

  lemma EntryOpens(g: Graph, scorer: Scorer, k: nat, target: nat, node: nat, done: seq<Path>, cur: Path,
                   arena: seq<Entry>, w: Sweep, index: nat)
    requires g.Valid() && node < g.nodeCount
    requires Tracks(g, scorer, k, target, node, done, [], 0, w)
    requires ArenaValid(arena) && arena <= w.arena && index < |arena| && Trace(arena, index) == cur
    ensures Extending(g, scorer, k, target, node, done, cur, g.starts[node], w, index)
  {
    MidwayOpens(g, scorer, target, node, AllExpected(g, scorer, k, target, node + 1, node), done, cur);
    MidwayOpens(g, scorer, target, node, AllExpected(g, scorer, k, target, 0, node), done, cur);
    TraceIsStable(arena, w.arena, index);
  }

  lemma EntryCloses(g: Graph, scorer: Scorer, k: nat, target: nat, node: nat, done: seq<Path>, cur: Path, w: Sweep,
                    index: nat)
    requires g.Valid() && node < g.nodeCount
    requires Extending(g, scorer, k, target, node, done, cur, g.starts[node + 1], w, index)
    ensures Tracks(g, scorer, k, target, node, done + [cur], [], 0, w)
  {
    MidwayOpens(g, scorer, target, node, AllExpected(g, scorer, k, target, node + 1, node), done, cur);
    MidwayOpens(g, scorer, target, node, AllExpected(g, scorer, k, target, 0, node), done, cur);
  }

  /** Extends every ranked entry of one state, in rank order. */
  method ExtendState(g: Graph, scorer: Scorer, k: nat, target: nat, node: nat, state: nat, w: Sweep,
                     ghost done: seq<Path>)
    returns (r: Result<Sweep, DecodeError>)
    requires g.Valid() && k > 0 && node < target < g.nodeCount && state <= |g.edges| && g.Node(state) == node
    requires Tracks(g, scorer, k, target, node, done, [], 0, w)
    requires |done| + |Ranked(g, scorer, AtMost(k), state)| <= |Collect(g, scorer, AtMost(k), node, g.StatesAt(node))|
    ensures r.Ok? ==> Tracks(g, scorer, k, target, node, done + Ranked(g, scorer, AtMost(k), state), [], 0, r.value)
    ensures r.Err? ==> r.error == TooManyEntries(k) && SearchSize(g, scorer, k, target) > U32_COUNT
  {
    hide Tracks;
    hide Extending;
    hide Ranked;
    hide Collect;
    hide ArenaValid;
    hide Trace;
    hide SearchSize;
    ghost var ps := Ranked(g, scorer, AtMost(k), state);
    StateShows(g, scorer, k, target, node, state, w, done);
    var ranked := w.buckets[state];
    r := Ok(w);
    ghost var past := done;
    for j := 0 to |ranked|
      invariant r.Ok? && w.arena <= r.value.arena && past == done + ps[..j]
      invariant Tracks(g, scorer, k, target, node, past, [], 0, r.value)
    {
      EntryOpens(g, scorer, k, target, node, past, ps[j], w.arena, r.value, ranked[j]);
      r := ExtendEntry(g, scorer, k, target, node, ranked[j], r.value, past, ps[j]);
      if r.Err? { return; }
      EntryCloses(g, scorer, k, target, node, past, ps[j], r.value, ranked[j]);
      past := past + [ps[j]];
    }
    assert past == done + ps;
  }

  /** Between nodes: everything below `ranked` is ranked, everything below `extended` is extended. */
  ghost predicate Swept(g: Graph, scorer: Scorer, k: nat, target: nat, ranked: nat, extended: nat, w: Sweep)
    requires g.Valid()
  {
    && Holds(g, w.arena, w.buckets, AllExpected(g, scorer, k, target, ranked, extended))
    && |w.arena| == Total(AllExpected(g, scorer, k, target, 0, extended)) <= U32_COUNT
  }

  lemma NodeOpens(g: Graph, scorer: Scorer, k: nat, target: nat, node: nat, w: Sweep)
    requires g.Valid() && Swept(g, scorer, k, target, node + 1, node, w)
    ensures Tracks(g, scorer, k, target, node, [], [], 0, w)
  {
    StartMidway(g, scorer, k, target, node + 1, node);
    StartMidway(g, scorer, k, target, 0, node);
  }

  lemma NodeCloses(g: Graph, scorer: Scorer, k: nat, target: nat, node: nat, w: Sweep)
    requires g.Valid()
    requires Tracks(g, scorer, k, target, node, Collect(g, scorer, AtMost(k), node, g.StatesAt(node)), [], 0, w)
    ensures Swept(g, scorer, k, target, node + 1, node + 1, w)
  {
    EndMidway(g, scorer, k, target, node + 1, node);
    EndMidway(g, scorer, k, target, 0, node);
  }

  /** Extends every state of one node, in ascending edge order. */
  method ExtendNode(g: Graph, x: IncomingIndex.Incoming, scorer: Scorer, k: nat, target: nat, node: nat, w: Sweep)
    returns (r: Result<Sweep, DecodeError>)
    requires g.Valid() && IncomingIndex.Indexes(g, x) && k > 0 && node < target < g.nodeCount
    requires Swept(g, scorer, k, target, node + 1, node, w)
    ensures r.Ok? ==> Swept(g, scorer, k, target, node + 1, node + 1, r.value)
    ensures r.Err? ==> r.error == TooManyEntries(k) && SearchSize(g, scorer, k, target) > U32_COUNT
  {
    hide Tracks;
    hide Swept;
    hide Ranked;
    hide SearchSize;
    hide IncomingIndex.Indexes;
    var states := IncomingIndex.StatesAt(g, x, node);
    NodeOpens(g, scorer, k, target, node, w);
    r := Ok(w);
    ghost var done: seq<Path> := [];
    for i := 0 to |states|
      invariant r.Ok? && done == Collect(g, scorer, AtMost(k), node, states[..i])
      invariant Tracks(g, scorer, k, target, node, done, [], 0, r.value)
    {
      CollectSteps(g, scorer, AtMost(k), node, states, i);
      CollectGrows(g, scorer, AtMost(k), node, states, i + 1);
      r := ExtendState(g, scorer, k, target, node, states[i], r.value, done);
      if r.Err? { return; }
      done := done + Ranked(g, scorer, AtMost(k), states[i]);
    }
    assert states[..|states|] == states;
    NodeCloses(g, scorer, k, target, node, r.value);
  }

  lemma EdgeLeaves(g: Graph, node: nat, e: nat)
    requires g.Valid() && node < g.nodeCount && g.starts[node] <= e < g.starts[node + 1]
    ensures e < |g.edges| && g.edges[e].from == node
  {
    StartsAscend(g, node + 1, g.nodeCount);
    var n := g.edges[e].from;
    if n < node { StartsAscend(g, n + 1, node); }
    if n > node { StartsAscend(g, node + 1, n); }
  }

  // ---- the search ----

  lemma FirstSweep(g: Graph, scorer: Scorer, k: nat, target: nat)
    requires g.Valid()
    ensures Swept(g, scorer, k, target, 0, 0, Sweep([Root(0)], [[0]] + seq(|g.edges|, _ => [])))
  {
    var expected := AllExpected(g, scorer, k, target, 0, 0);
    assert expected == [[Path(0, [])]] + seq(|g.edges|, _ => []);
    TotalOfEmpty(|g.edges|);
  }

  lemma {:induction false} TotalOfEmpty(n: nat)
    ensures Total(seq(n, _ => [])) == 0
  {
    if n > 0 {
      assert seq<seq<Path>>(n, _ => [])[1..] == seq(n - 1, _ => []);
      TotalOfEmpty(n - 1);
    }
  }

  lemma ShowsAppend(arena: seq<Entry>, b: seq<nat>, c: seq<nat>, ps: seq<Path>, qs: seq<Path>)
    requires ArenaValid(arena) && Shows(arena, b, ps) && Shows(arena, c, qs)
    ensures Shows(arena, b + c, ps + qs)
  {
    hide Trace, ArenaValid;
  }

  lemma FinalistsOf(g: Graph, scorer: Scorer, k: nat, target: nat, w: Sweep, state: nat)
    requires g.Valid() && k > 0 && Swept(g, scorer, k, target, target + 1, target, w)
    requires state <= |g.edges| && g.Node(state) == target
    ensures state < |w.buckets| && ArenaValid(w.arena)
    ensures Shows(w.arena, w.buckets[state], Ranked(g, scorer, AtMost(k), state))
  {
    assert AllExpected(g, scorer, k, target, target + 1, target)[state] == Ranked(g, scorer, AtMost(k), state);
  }

  lemma CollectSteps(g: Graph, scorer: Scorer, w: Width, node: nat, states: seq<nat>, i: nat)
    requires g.Valid() && g.Current(node, states) && i < |states|
    ensures Collect(g, scorer, w, node, states[..i + 1]) ==
      Collect(g, scorer, w, node, states[..i]) + Ranked(g, scorer, w, states[i])
  {
    assert states[..i + 1][..i] == states[..i];
  }

  /** The surviving entries of the target's states, in ascending edge order. */
  method Finalists(g: Graph, x: IncomingIndex.Incoming, ghost scorer: Scorer, ghost k: nat, target: nat, w: Sweep)
                   returns (all: seq<nat>)
    requires g.Valid() && IncomingIndex.Indexes(g, x) && k > 0
    requires ArenaValid(w.arena) && Swept(g, scorer, k, target, target + 1, target, w)
    ensures Shows(w.arena, all, Collect(g, scorer, AtMost(k), target, g.StatesAt(target)))
  {
    hide IncomingIndex.Indexes;
    var states := IncomingIndex.StatesAt(g, x, target);
    all := [];
    for i := 0 to |states|
      invariant Shows(w.arena, all, Collect(g, scorer, AtMost(k), target, states[..i]))
    {
      hide *;
      CollectSteps(g, scorer, AtMost(k), target, states, i);
      FinalistsOf(g, scorer, k, target, w, states[i]);
      ShowsAppend(w.arena, all, w.buckets[states[i]], Collect(g, scorer, AtMost(k), target, states[..i]),
                  Ranked(g, scorer, AtMost(k), states[i]));
      all := all + w.buckets[states[i]];
    }
    assert states[..|states|] == states;
  }

  method ReconstructAll(arena: seq<Entry>, bucket: seq<nat>, ghost ps: seq<Path>) returns (r: seq<Path>)
    requires ArenaValid(arena) && Shows(arena, bucket, ps)
    ensures r == ps
  {
    r := [];
    for i := 0 to |bucket|
      invariant r == ps[..i]
    {
      var p := Reconstruct(arena, bucket[i]);
      r := r + [p];
    }
  }

  /** Runs the sweep up to the target: every node ranked, every node before the target extended. */
  method SweepTo(g: Graph, x: IncomingIndex.Incoming, scorer: Scorer, k: nat, target: nat)
                 returns (r: Result<Sweep, DecodeError>)
    requires g.Valid() && IncomingIndex.Indexes(g, x) && k > 0 && target < g.nodeCount
    ensures r.Ok? <==> SearchSize(g, scorer, k, target) <= U32_COUNT
    ensures r.Ok? ==> Swept(g, scorer, k, target, target + 1, target, r.value)
    ensures r.Err? ==> r.error == TooManyEntries(k)
  {
    hide IncomingIndex.Indexes;
    FirstSweep(g, scorer, k, target);
    var w := Sweep([Root(0)], [[0]] + seq(|g.edges|, _ => []));
    var node := 0;
    while true
      invariant node <= target && Swept(g, scorer, k, target, node, node, w)
      decreases target - node
    {
      var buckets := RankNode(g, x, scorer, k, target, node, w.arena, w.buckets);
      w := Sweep(w.arena, buckets);
      if node == target { return Ok(w); }
      hide Swept;
      r := ExtendNode(g, x, scorer, k, target, node, w);
      if r.Err? { return; }
      w := r.value;
      node := node + 1;
    }
  }

  /** The search as a whole: its three refusals, then sweep, finalists and backpointers. */
  method KBestTo(g: Graph, scorer: Scorer, k: nat, target: nat) returns (r: Result<seq<Path>, DecodeError>)
    requires g.Valid()
    ensures r == if k > 4096 then Err(KTooLarge(k))
                 else if k == 0 || target >= g.nodeCount then Ok([])
                 else if |g.edges| >= 0x1_0000_0000 then Err(TooManyEdges(|g.edges|))
                 else if SearchSize(g, scorer, k, target) > U32_COUNT then Err(TooManyEntries(k))
                 else Ok(Take(k, AllPaths(g, scorer, target)))
  {
    if k > MAX_K { return Err(KTooLarge(k)); }
    if k == 0 || target >= g.nodeCount { return Ok([]); }
    if |g.edges| >= U32_COUNT { return Err(TooManyEdges(|g.edges|)); }
    hide IncomingIndex.Indexes;
    var incoming := IncomingIndex.Build(g);
    var swept := SweepTo(g, incoming, scorer, k, target);
    if swept.Err? { return Err(swept.error); }
    var w := swept.value;
    var all := Finalists(g, incoming, scorer, k, target, w);
    ghost var ps := Collect(g, scorer, AtMost(k), target, g.StatesAt(target));
    RankingShows(w.arena, k, all, ps);
    BeamFinalists(g, scorer, k, target, g.StatesAt(target));
    var paths := ReconstructAll(w.arena, Take(k, Sort(ByCost(w.arena), all)), Take(k, Sort(Cheaper, ps)));
    r := Ok(paths);
  }

  /** What the search promises, with no ranking in sight: it returns as many walks as asked for or as
      exist, all different, each with its own cost, in the decoder's order, and every walk it leaves out
      comes after every walk it returns. */
  lemma KBestAreTheBest(g: Graph, scorer: Scorer, k: nat, target: nat, paths: seq<Path>)
    requires g.Valid() && paths == Take(k, AllPaths(g, scorer, target))
    ensures |paths| <= k
    ensures forall p :: IsPathTo(g, scorer, p, target) && p !in paths ==> |paths| == k
    ensures forall p :: p in paths ==> IsPathTo(g, scorer, p, target)
    ensures forall i, j :: 0 <= i < j < |paths| ==> InRank(g, scorer, paths[i], paths[j])
    ensures forall p, q :: IsPathTo(g, scorer, p, target) && p !in paths && q in paths ==>
      InRank(g, scorer, q, p) && q.cost <= p.cost
    ensures forall p :: p in paths && InRange(g, scorer, p.edges) ==> p.cost == Sum(g, scorer, p)
    ensures forall p, q :: (&& IsPathTo(g, scorer, p, target) && p !in paths && q in paths
                            && InRange(g, scorer, p.edges) && InRange(g, scorer, q.edges))
                           ==> Sum(g, scorer, q) <= Sum(g, scorer, p)
  {
    hide AllPaths, IsPathTo, InRank;
    var all := AllPaths(g, scorer, target);
    AllPathsExact(g, scorer, target);
    forall p | IsPathTo(g, scorer, p, target) && p !in paths
      ensures |paths| == k
    {
      assert p in all;
    }
    forall p, q | IsPathTo(g, scorer, p, target) && p !in paths && q in paths
      ensures InRank(g, scorer, q, p) && q.cost <= p.cost
    {
      var i :| 0 <= i < |paths| && paths[i] == q;
      assert p in all && q in all;
      var j :| 0 <= j < |all| && all[j] == p;
      assert j >= |paths| && all[i] == q;
      RankIsByCost(g, scorer, target, q, p);
    }
    forall p | IsPathTo(g, scorer, p, target) && InRange(g, scorer, p.edges)
      ensures p.cost == Sum(g, scorer, p)
    {
      SumIsCost(g, scorer, p, target);
    }
  }

  /** The plain sum of a path's steps. */
  ghost function Sum(g: Graph, scorer: Scorer, p: Path): (c: int)
    requires g.Owns(p.edges)
  {
    PlainSum(g, scorer, p.edges, |p.edges|)
  }

  lemma SumIsCost(g: Graph, scorer: Scorer, p: Path, target: nat)
    requires IsPathTo(g, scorer, p, target) && InRange(g, scorer, p.edges)
    ensures p.cost == Sum(g, scorer, p)
  {
    hide WalkCost, IsWalk, PlainSum;
    CostIsPlainSum(g, scorer, p.edges);
  }

  lemma RankIsByCost(g: Graph, scorer: Scorer, target: nat, q: Path, p: Path)
    requires IsPathTo(g, scorer, q, target) && IsPathTo(g, scorer, p, target) && InRank(g, scorer, q, p)
    ensures q.cost <= p.cost
  {
    hide IsWalk, WalkCost, Precedes;
  }
}
