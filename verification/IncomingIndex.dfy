/** The edges entering each node, laid out in one flat array by a counting sort. */
module IncomingIndex {
  import opened SegmentGraph

  /** The ids below `n` of the edges entering `node`, ascending. */
  function Into(edges: seq<Edge>, node: nat, n: nat): (r: seq<nat>)
    requires n <= |edges|
    ensures |r| <= n
  {
    if n == 0 then [] else Into(edges, node, n - 1) + if edges[n - 1].to == node then [n - 1] else []
  }

  /** How many of the first `n` edges enter a node below `node`. */
  function Upto(edges: seq<Edge>, node: nat, n: nat): (r: nat)
    requires n <= |edges|
  {
    if node == 0 then 0 else Upto(edges, node - 1, n) + |Into(edges, node - 1, n)|
  }

  lemma {:induction false} UptoStep(edges: seq<Edge>, node: nat, n: nat)
    requires n < |edges|
    ensures Upto(edges, node, n + 1) == Upto(edges, node, n) + if edges[n].to < node then 1 else 0
  {
    if node > 0 { UptoStep(edges, node - 1, n); }
  }

  lemma {:induction false} UptoNone(edges: seq<Edge>, node: nat)
    ensures Upto(edges, node, 0) == 0
  {
    if node > 0 { UptoNone(edges, node - 1); }
  }

  /** Every edge enters exactly one node. */
  lemma {:induction false} UptoAll(edges: seq<Edge>, nodes: nat, n: nat)
    requires n <= |edges| && forall e :: 0 <= e < |edges| ==> edges[e].to < nodes
    ensures Upto(edges, nodes, n) == n
  {
    if n == 0 {
      UptoNone(edges, nodes);
    } else {
      UptoAll(edges, nodes, n - 1);
      UptoStep(edges, nodes, n - 1);
    }
  }

  lemma {:induction false} IntoGrows(edges: seq<Edge>, node: nat, n: nat, m: nat)
    requires n <= m <= |edges|
    ensures Into(edges, node, n) <= Into(edges, node, m)
  {
    if n < m { IntoGrows(edges, node, n, m - 1); }
  }

  /** The ranges of different nodes do not overlap. */
  lemma {:induction false} RangesApart(edges: seq<Edge>, a: nat, b: nat)
    requires a < b
    ensures Upto(edges, a, |edges|) + |Into(edges, a, |edges|)| <= Upto(edges, b, |edges|)
  {
    if a < b - 1 { RangesApart(edges, a, b - 1); }
  }

  datatype Incoming = Incoming(starts: seq<nat>, ids: seq<nat>)

  /** The range of each node lists exactly the edges entering it, ascending. */
  ghost predicate Indexes(g: Graph, x: Incoming) {
    && |x.starts| == g.nodeCount + 1 && |x.ids| == |g.edges|
    && forall n :: 0 <= n < g.nodeCount ==> Ranges(g, x, n)
  }

  ghost predicate Ranges(g: Graph, x: Incoming, n: nat)
    requires n + 1 < |x.starts|
  {
    x.starts[n] <= x.starts[n + 1] <= |x.ids| && x.ids[x.starts[n]..x.starts[n + 1]] == Into(g.edges, n, |g.edges|)
  }

  /** Counts the edges into each node, one place up. */
  method CountInto(g: Graph) returns (starts: array<nat>)
    requires g.Valid()
    ensures fresh(starts) && starts.Length == g.nodeCount + 1 && starts[0] == 0
    ensures forall n :: 1 <= n <= g.nodeCount ==> starts[n] == |Into(g.edges, n - 1, |g.edges|)|
  {
    hide Into;
    starts := new nat[g.nodeCount + 1](_ => 0);
    forall m | 0 <= m < g.nodeCount
      ensures |Into(g.edges, m, 0)| == 0
    {
      IntoNone(g.edges, m);
    }
    for i := 0 to |g.edges|
      invariant starts[0] == 0 && forall n :: 1 <= n <= g.nodeCount ==> starts[n] == |Into(g.edges, n - 1, i)|
    {
      forall m | 0 <= m < g.nodeCount
        ensures |Into(g.edges, m, i + 1)| == |Into(g.edges, m, i)| + if g.edges[i].to == m then 1 else 0
      {
        IntoNext(g.edges, m, i);
      }
      var edge := g.edges[i];
      starts[edge.to + 1] := starts[edge.to + 1] + 1;
    }
  }

  method SumCounts(nodes: nat, edges: seq<Edge>, starts: array<nat>)
    requires starts.Length == nodes + 1 && starts[0] == 0
    requires forall n :: 1 <= n <= nodes ==> starts[n] == |Into(edges, n - 1, |edges|)|
    modifies starts
    ensures forall n :: 0 <= n <= nodes ==> starts[n] == Upto(edges, n, |edges|)
  {
    hide Into, Upto;
    UptoZero(edges, |edges|);
    for node := 0 to nodes
      invariant forall n :: 0 <= n <= node ==> starts[n] == Upto(edges, n, |edges|)
      invariant forall n :: node < n <= nodes ==> starts[n] == |Into(edges, n - 1, |edges|)|
    {
      UptoNext(edges, node, |edges|);
      starts[node + 1] := starts[node + 1] + starts[node];
    }
  }

  lemma UptoZero(edges: seq<Edge>, n: nat)
    requires n <= |edges|
    ensures Upto(edges, 0, n) == 0
  {
  }

  lemma UptoNext(edges: seq<Edge>, node: nat, n: nat)
    requires n <= |edges|
    ensures Upto(edges, node + 1, n) == Upto(edges, node, n) + |Into(edges, node, n)|
  {
    hide Into;
  }

  lemma IntoNone(edges: seq<Edge>, node: nat)
    ensures Into(edges, node, 0) == []
  {
  }

  lemma IntoNext(edges: seq<Edge>, node: nat, n: nat)
    requires n < |edges|
    ensures Into(edges, node, n + 1) == Into(edges, node, n) + if edges[n].to == node then [n] else []
  {
  }

  /** The first `i` edges are placed. */
  ghost predicate Placed(g: Graph, cursor: seq<nat>, ids: seq<nat>, i: nat)
    requires i <= |g.edges|
  {
    && |cursor| == g.nodeCount + 1 && |ids| == |g.edges|
    && (forall n :: 0 <= n < g.nodeCount ==> cursor[n] == Upto(g.edges, n, |g.edges|) + |Into(g.edges, n, i)|)
    && (forall n :: 0 <= n < g.nodeCount ==> Listed(g, ids, n, i))
  }

  ghost predicate Listed(g: Graph, ids: seq<nat>, n: nat, i: nat)
    requires i <= |g.edges|
  {
    var from, into := Upto(g.edges, n, |g.edges|), Into(g.edges, n, i);
    from + |into| <= |ids| && ids[from..from + |into|] == into
  }

  lemma InRange(g: Graph, n: nat, i: nat)
    requires g.Valid() && n < g.nodeCount && i <= |g.edges|
    ensures Upto(g.edges, n, |g.edges|) + |Into(g.edges, n, i)| <= |g.edges|
    ensures i < |g.edges| && g.edges[i].to == n ==> Upto(g.edges, n, |g.edges|) + |Into(g.edges, n, i)| < |g.edges|
  {
    hide Into, Upto;
    UptoAll(g.edges, g.nodeCount, |g.edges|);
    RangesApart(g.edges, n, g.nodeCount);
    IntoGrows(g.edges, n, i, |g.edges|);
    if i < |g.edges| {
      IntoNext(g.edges, n, i);
      IntoGrows(g.edges, n, i + 1, |g.edges|);
    }
  }

  /** Placing edge `i` extends its own node's range. */
  lemma PlaceOwn(g: Graph, ids: seq<nat>, i: nat, slot: nat)
    requires g.Valid() && i < |g.edges| == |ids| && Listed(g, ids, g.edges[i].to, i)
    requires slot == Upto(g.edges, g.edges[i].to, |g.edges|) + |Into(g.edges, g.edges[i].to, i)| && slot < |ids|
    ensures Listed(g, ids[slot := i], g.edges[i].to, i + 1)
  {
    hide Into, Upto, g.Valid;
    var t := g.edges[i].to;
    IntoNext(g.edges, t, i);
    Extended(ids, Upto(g.edges, t, |g.edges|), slot, i);
  }

  lemma Extended(ids: seq<nat>, from: nat, slot: nat, i: nat)
    requires from <= slot < |ids|
    ensures ids[slot := i][from..slot + 1] == ids[from..slot] + [i]
  {
  }

  /** And leaves every other node's range. */
  lemma PlaceOther(g: Graph, ids: seq<nat>, n: nat, i: nat, slot: nat)
    requires g.Valid() && n < g.nodeCount && i < |g.edges| == |ids| && Listed(g, ids, n, i) && n != g.edges[i].to
    requires slot == Upto(g.edges, g.edges[i].to, |g.edges|) + |Into(g.edges, g.edges[i].to, i)| && slot < |ids|
    ensures Listed(g, ids[slot := i], n, i + 1)
  {
    hide Into, Upto, g.Valid;
    var t := g.edges[i].to;
    IntoNext(g.edges, n, i);
    IntoNext(g.edges, t, i);
    IntoGrows(g.edges, n, i, |g.edges|);
    IntoGrows(g.edges, t, i + 1, |g.edges|);
    if n < t { RangesApart(g.edges, n, t); } else { RangesApart(g.edges, t, n); }
    var from := Upto(g.edges, n, |g.edges|);
    Untouched(ids, from, from + |Into(g.edges, n, i)|, slot, i);
  }

  lemma Untouched(ids: seq<nat>, from: nat, end: nat, slot: nat, i: nat)
    requires from <= end <= |ids| && slot < |ids| && !(from <= slot < end)
    ensures ids[slot := i][from..end] == ids[from..end]
  {
  }

  lemma PlaceAll(g: Graph, cursor: seq<nat>, ids: seq<nat>, i: nat)
    requires g.Valid() && i < |g.edges| && Placed(g, cursor, ids, i)
    ensures var t := g.edges[i].to;
      cursor[t] < |ids| && Placed(g, cursor[t := cursor[t] + 1], ids[cursor[t] := i], i + 1)
  {
    hide Listed, Upto, Into;
    var t := g.edges[i].to;
    InRange(g, t, i);
    var slot := cursor[t];
    var ids' := ids[slot := i];
    var cursor' := cursor[t := slot + 1];
    forall n | 0 <= n < g.nodeCount
      ensures cursor'[n] == Upto(g.edges, n, |g.edges|) + |Into(g.edges, n, i + 1)|
    {
      IntoNext(g.edges, n, i);
    }
    var next := i + 1;
    forall n | 0 <= n < g.nodeCount
      ensures Listed(g, ids', n, next)
    {
      if n == t { PlaceOwn(g, ids, i, slot); } else { PlaceOther(g, ids, n, i, slot); }
    }
  }

  lemma NothingPlaced(g: Graph, cursor: seq<nat>, ids: seq<nat>)
    requires g.Valid() && |cursor| == g.nodeCount + 1 && |ids| == |g.edges|
    requires forall n :: 0 <= n <= g.nodeCount ==> cursor[n] == Upto(g.edges, n, |g.edges|)
    ensures Placed(g, cursor, ids, 0)
  {
    forall n | 0 <= n < g.nodeCount
      ensures Listed(g, ids, n, 0)
    {
      InRange(g, n, 0);
    }
  }

  lemma AllPlaced(g: Graph, starts: seq<nat>, cursor: seq<nat>, ids: seq<nat>)
    requires g.Valid() && Placed(g, cursor, ids, |g.edges|)
    requires |starts| == g.nodeCount + 1 && forall n :: 0 <= n <= g.nodeCount ==>
      starts[n] == Upto(g.edges, n, |g.edges|)
    ensures Indexes(g, Incoming(starts, ids))
  {
    hide Into, Upto;
    var x := Incoming(starts, ids);
    forall n | 0 <= n < g.nodeCount
      ensures Ranges(g, x, n)
    {
      assert Listed(g, ids, n, |g.edges|);
      UptoNext(g.edges, n, |g.edges|);
    }
  }

  /** The index: counts, running sums, then each edge into the next free place of its node's range. */
  method Build(g: Graph) returns (x: Incoming)
    requires g.Valid()
    ensures Indexes(g, x)
  {
    hide Into, Upto, Placed, Indexes;
    var starts := CountInto(g);
    SumCounts(g.nodeCount, g.edges, starts);
    var cursor := new nat[g.nodeCount + 1](i requires 0 <= i < starts.Length reads starts => starts[i]);
    var ids := new nat[|g.edges|](_ => 0);
    ghost var sums := starts[..];
    assert cursor[..] == sums;
    NothingPlaced(g, cursor[..], ids[..]);
    for i := 0 to |g.edges|
      invariant starts[..] == sums && Placed(g, cursor[..], ids[..], i)
    {
      PlaceAll(g, cursor[..], ids[..], i);
      var t := g.edges[i].to;
      ghost var c, d := cursor[..], ids[..];
      var slot := cursor[t];
      ids[slot] := i;
      cursor[t] := slot + 1;
      assert cursor[..] == c[t := c[t] + 1] && ids[..] == d[c[t] := i];
    }
    AllPlaced(g, starts[..], cursor[..], ids[..]);
    x := Incoming(starts[..], ids[..]);
  }

  function Next(ids: seq<nat>): (r: seq<nat>)
    ensures |r| == |ids|
  {
    seq(|ids|, i requires 0 <= i < |ids| => ids[i] + 1)
  }

  /** The states current at `node`, read off the index, are the states whose node it is, ascending. */
  method StatesAt(g: Graph, x: Incoming, node: nat) returns (states: seq<nat>)
    requires g.Valid() && Indexes(g, x)
    ensures states == g.StatesAt(node)
  {
    states := if node == 0 then [0] else [];
    AreStates(g, node, |g.edges|);
    if node >= g.nodeCount {
      NoneBeyond(g, node, |g.edges|);
      return;
    }
    assert Ranges(g, x, node);
    states := states + Next(x.ids[x.starts[node]..x.starts[node + 1]]);
  }

  lemma {:induction false} AreStates(g: Graph, node: nat, n: nat)
    requires n <= |g.edges|
    ensures g.StatesBelow(node, n + 1) == (if node == 0 then [0] else []) + Next(Into(g.edges, node, n))
  {
    hide g.StatesBelow, g.Current, Into, Next;
    StatesNext(g, node, n);
    if n == 0 {
      StatesNone(g, node);
    } else {
      AreStates(g, node, n - 1);
      IntoNext(g.edges, node, n - 1);
      var start: seq<nat> := if node == 0 then [0] else [];
      JoinStates(start, g.StatesBelow(node, n), Into(g.edges, node, n - 1), n, g.Node(n) == node);
    }
  }

  lemma StatesNext(g: Graph, node: nat, n: nat)
    requires n <= |g.edges|
    ensures g.StatesBelow(node, n + 1) == g.StatesBelow(node, n) + if g.Node(n) == node then [n] else []
  {
  }

  lemma StatesNone(g: Graph, node: nat)
    ensures g.StatesBelow(node, 0) == [] && Next(Into(g.edges, node, 0)) == []
  {
  }

  lemma JoinStates(start: seq<nat>, states: seq<nat>, ids: seq<nat>, n: nat, enters: bool)
    requires n > 0 && states == start + Next(ids)
    ensures states + (if enters then [n] else []) == start + Next(ids + if enters then [n - 1] else [])
  {
    if enters {
      assert Next(ids + [n - 1]) == Next(ids) + [n];
    } else {
      assert ids + [] == ids;
    }
  }

  lemma {:induction false} NoneBeyond(g: Graph, node: nat, n: nat)
    requires g.Valid() && node >= g.nodeCount && n <= |g.edges|
    ensures Into(g.edges, node, n) == []
  {
    if n > 0 { NoneBeyond(g, node, n - 1); }
  }
}
