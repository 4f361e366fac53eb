/** `_layer_nodes`: longest-path layers of the drawn graph without its feedback edges. */
module Layering {
  import opened Digraph
  import opened FeedbackEdges

  ghost function NodeSet(nodes: seq<Node>): set<Node> {
    set n | n in nodes
  }

  /** The kept edges between listed nodes: the ones that push a layer to the right. */
  ghost function Forward(nodes: set<Node>, edges: seq<Edge>, back: set<nat>): set<nat> {
    set e | e in Positions(|edges|) - back && edges[e].src in nodes && edges[e].dst in nodes
  }

  /** `length` is the number of edges of a longest walk over `keep` that ends in `v`. */
  ghost predicate Longest(edges: seq<Edge>, keep: set<nat>, v: Node, length: int) {
    && (exists a, p :: Walk(edges, keep, a, p, v) && |p| == length)
    && (forall a, p :: Walk(edges, keep, a, p, v) ==> |p| <= length)
  }

  /** Every layer is the length of some walk ending there. */
  ghost predicate Attained(edges: seq<Edge>, keep: set<nat>, layer: map<Node, int>) {
    forall v :: v in layer ==> exists a, p :: Walk(edges, keep, a, p, v) && |p| == layer[v]
  }

  /** Layers are at least the length of every walk of at most `bound` edges. */
  ghost predicate Covers(edges: seq<Edge>, keep: set<nat>, layer: map<Node, int>, bound: nat) {
    forall a, p, v :: v in layer && |p| <= bound && Walk(edges, keep, a, p, v) ==> |p| <= layer[v]
  }

  /** The same for walks of at most `bound` + 1 edges whose last edge is in `relaxed`. */
  ghost predicate CoversPast(edges: seq<Edge>, keep: set<nat>, layer: map<Node, int>, bound: nat, relaxed: set<nat>) {
    forall a, p, v :: v in layer && 0 < |p| <= bound + 1 && p[|p| - 1] in relaxed && Walk(edges, keep, a, p, v) ==>
      |p| <= layer[v]
  }

  ghost predicate Ascends(edges: seq<Edge>, some: set<nat>, layer: map<Node, int>) {
    forall e :: e in some && e < |edges| && edges[e].src in layer && edges[e].dst in layer ==>
      layer[edges[e].src] < layer[edges[e].dst]
  }

  /** The positions below `n` that are not in `back`, in order: the edges the sweeps visit. */
  function Kept(n: nat, back: set<nat>): (kept: seq<nat>)
    ensures forall e: nat :: e in kept <==> e < n && e !in back
  {
    if n == 0 then [] else Kept(n - 1, back) + if n - 1 in back then [] else [n - 1]
  }

  /** Raising one target keeps both bounds, and covers the walks ending in that edge. */
  lemma RelaxKeeps(edges: seq<Edge>, keep: set<nat>, layer: map<Node, int>, raised: map<Node, int>,
                   bound: nat, relaxed: set<nat>, e: nat)
    requires Attained(edges, keep, layer) && Covers(edges, keep, layer, bound)
    requires CoversPast(edges, keep, layer, bound, relaxed)
    requires e in keep && e < |edges| && edges[e].src in layer && edges[e].dst in layer
    requires raised == if layer[edges[e].dst] < layer[edges[e].src] + 1
                       then layer[edges[e].dst := layer[edges[e].src] + 1] else layer
    ensures Attained(edges, keep, raised) && Covers(edges, keep, raised, bound)
    ensures CoversPast(edges, keep, raised, bound, relaxed + {e})
  {
    var src, dst := edges[e].src, edges[e].dst;
    forall v | v in raised ensures exists a, p :: Walk(edges, keep, a, p, v) && |p| == raised[v] {
      if raised[v] != layer[v] {
        var a, p :| Walk(edges, keep, a, p, src) && |p| == layer[src];
        WalkStep(edges, keep, a, p, e);
        assert |p + [e]| == raised[v];
      }
    }
    forall a, p, v | v in raised && 0 < |p| <= bound + 1 && p[|p| - 1] in relaxed + {e} && Walk(edges, keep, a, p, v)
      ensures |p| <= raised[v]
    {
      if p[|p| - 1] == e {
        assert Walk(edges, keep, a, p[..|p| - 1], src);
      }
    }
  }

  lemma SweepCovers(edges: seq<Edge>, keep: set<nat>, layer: map<Node, int>, bound: nat)
    requires Covers(edges, keep, layer, bound) && CoversPast(edges, keep, layer, bound, keep)
    ensures Covers(edges, keep, layer, bound + 1)
  {
  }

  /** `keep` is an acyclic set of edges between nodes of `nodes`: each leads down in `rank`. */
  ghost predicate Skeleton(nodes: set<Node>, edges: seq<Edge>, keep: set<nat>, rank: map<Node, nat>) {
    && nodes <= rank.Keys && Descends(edges, keep, rank)
    && forall e :: e in keep ==> e < |edges| && edges[e].src in nodes && edges[e].dst in nodes
  }

  lemma ForwardIsSkeleton(nodes: set<Node>, edges: seq<Edge>, back: set<nat>, rank: map<Node, nat>)
    requires nodes <= rank.Keys && Descends(edges, Positions(|edges|) - back, rank)
    ensures Skeleton(nodes, edges, Forward(nodes, edges, back), rank)
  {
  }

  /** Once walks of every possible length are covered, no edge can raise a layer. */
  lemma NothingToRaise(nodes: set<Node>, edges: seq<Edge>, keep: set<nat>, rank: map<Node, nat>,
                       layer: map<Node, int>, bound: nat, e: nat)
    requires Skeleton(nodes, edges, keep, rank) && layer.Keys == nodes && |nodes| <= bound
    requires Attained(edges, keep, layer) && Covers(edges, keep, layer, bound)
    requires e in keep
    ensures layer[edges[e].src] < layer[edges[e].dst]
  {
    hide Attained, Covers;
    var a, p := AttainedWalk(edges, keep, layer, edges[e].src);
    WalkStep(edges, keep, a, p, e);
    WalkBound(edges, keep, rank, nodes, a, p + [e], edges[e].dst);
    CoveredWalk(edges, keep, layer, bound, a, p + [e], edges[e].dst);
  }

  lemma AttainedWalk(edges: seq<Edge>, keep: set<nat>, layer: map<Node, int>, v: Node) returns (a: Node, p: seq<nat>)
    requires Attained(edges, keep, layer) && v in layer
    ensures Walk(edges, keep, a, p, v) && |p| == layer[v]
  {
    a, p :| Walk(edges, keep, a, p, v) && |p| == layer[v];
  }

  lemma CoveredWalk(edges: seq<Edge>, keep: set<nat>, layer: map<Node, int>, bound: nat, a: Node, p: seq<nat>, v: Node)
    requires Covers(edges, keep, layer, bound) && v in layer && |p| <= bound && Walk(edges, keep, a, p, v)
    ensures |p| <= layer[v]
  {
  }

  /** At a fixpoint no walk is longer than the layer it ends in. */
  lemma {:induction false} FixpointBounds(edges: seq<Edge>, keep: set<nat>, layer: map<Node, int>, a: Node,
                                          p: seq<nat>, v: Node)
    requires forall n :: n in layer ==> layer[n] >= 0
    requires forall e :: e in keep && e < |edges| ==>
               edges[e].src in layer && edges[e].dst in layer && layer[edges[e].src] < layer[edges[e].dst]
    requires v in layer && Walk(edges, keep, a, p, v)
    ensures |p| <= layer[v]
    decreases |p|
  {
    if p != [] {
      FixpointBounds(edges, keep, layer, a, p[..|p| - 1], edges[p[|p| - 1]].src);
    }
  }

  /** One sweep over the kept edges; `changed` tells whether it raised any layer. */
  method Sweep(edges: seq<Edge>, forward: seq<nat>, start: map<Node, int>, ghost back: set<nat>,
               ghost keep: set<nat>, ghost rank: map<Node, nat>, ghost bound: nat)
    returns (layer: map<Node, int>, changed: bool)
    requires forward == Kept(|edges|, back) && keep == Forward(start.Keys, edges, back)
    requires Skeleton(start.Keys, edges, keep, rank)
    requires Attained(edges, keep, start) && Covers(edges, keep, start, bound)
    ensures layer.Keys == start.Keys
    ensures Attained(edges, keep, layer) && Covers(edges, keep, layer, bound + 1)
    ensures changed ==> bound < |start.Keys|
    ensures !changed ==> layer == start && Ascends(edges, keep, layer)
  {
    hide Attained, Covers, CoversPast, Forward;
    layer, changed := start, false;
    ghost var relaxed: set<nat> := {};
    NothingRelaxed(edges, keep, layer, bound);
    for i := 0 to |forward|
      invariant layer.Keys == start.Keys
      invariant Attained(edges, keep, layer) && Covers(edges, keep, layer, bound)
      invariant CoversPast(edges, keep, layer, bound, relaxed)
      invariant forall k :: 0 <= k < i && forward[k] in keep ==> forward[k] in relaxed
      invariant relaxed <= keep
      invariant changed ==> bound < |start.Keys|
      invariant !changed ==> layer == start && Ascends(edges, relaxed, layer)
    {
      assert forward[i] in forward;
      var e := forward[i];
      var edge := edges[e];
      if edge.dst in layer && edge.src in layer {
        KeptForward(start.Keys, edges, back, e);
        RelaxKeeps(edges, keep, layer, Relaxed(layer, edge), bound, relaxed, e);
        if layer[edge.dst] < layer[edge.src] + 1 {
          if |start.Keys| <= bound {
            NothingToRaise(start.Keys, edges, keep, rank, layer, bound, e);
          }
          layer := layer[edge.dst := layer[edge.src] + 1];
          changed := true;
        }
        relaxed := relaxed + {e};
      }
    }
    forall e | e in keep ensures e in relaxed {
      KeptForward(start.Keys, edges, back, e);
      var k :| 0 <= k < |forward| && forward[k] == e;
    }
    assert relaxed == keep;
    SweepCovers(edges, keep, layer, bound);
  }

  lemma KeptForward(nodes: set<Node>, edges: seq<Edge>, back: set<nat>, e: nat)
    ensures e in Forward(nodes, edges, back) <==>
              e in Kept(|edges|, back) && e < |edges| && edges[e].src in nodes && edges[e].dst in nodes
  {
  }

  lemma NothingRelaxed(edges: seq<Edge>, keep: set<nat>, layer: map<Node, int>, bound: nat)
    ensures CoversPast(edges, keep, layer, bound, {}) && Ascends(edges, {}, layer)
  {
  }

  ghost function Relaxed(layer: map<Node, int>, edge: Edge): map<Node, int>
    requires edge.src in layer && edge.dst in layer
  {
    if layer[edge.dst] < layer[edge.src] + 1 then layer[edge.dst := layer[edge.src] + 1] else layer
  }

  /** The sweeps reach a fixpoint within their fixed budget: the loop is always left by its `break`. */
  method Settle(nodes: seq<Node>, edges: seq<Edge>, back: set<nat>, ghost rank: map<Node, nat>)
    returns (layer: map<Node, int>, settled: bool)
    requires NodeSet(nodes) <= rank.Keys && Descends(edges, Positions(|edges|) - back, rank)
    ensures settled && layer.Keys == NodeSet(nodes)
    ensures forall v :: v in layer ==> Longest(edges, Forward(NodeSet(nodes), edges, back), v, layer[v])
  {
    hide Attained, Covers, Forward, Descends, Skeleton, Longest, Ascends;
    var forward := Kept(|edges|, back);
    layer := map n | n in nodes :: 0;
    ghost var keep := Forward(NodeSet(nodes), edges, back);
    assert layer.Keys == NodeSet(nodes);
    ForwardIsSkeleton(NodeSet(nodes), edges, back, rank);
    NodeSetSize(nodes);
    FlatStart(edges, keep, layer);
    settled := false;
    for sweep := 0 to |nodes| + 1
      invariant layer.Keys == NodeSet(nodes)
      invariant Attained(edges, keep, layer) && Covers(edges, keep, layer, sweep)
      invariant sweep <= |nodes|
    {
      var changed;
      layer, changed := Sweep(edges, forward, layer, back, keep, rank, sweep);
      if !changed {
        settled := true;
        break;
      }
    }
    FixpointIsLongest(edges, keep, rank, layer);
  }

  /** The longest-path layering of the edges that are left, with the sources put in the first column. */
  method LayerNodes(nodes: seq<Node>, edges: seq<Edge>, sources: seq<Node>)
    returns (layer: map<Node, int>, ghost back: set<nat>)
    ensures layer.Keys == NodeSet(nodes) + NodeSet(sources)
    ensures AcyclicAround(edges, Positions(|edges|) - back, NodeSet(nodes))
    ensures forall b :: b in back ==> Closes(edges, Positions(|edges|) - back, b)
    ensures forall v :: v in nodes && v !in sources ==>
              Longest(edges, Forward(NodeSet(nodes), edges, back), v, layer[v])
    ensures forall v :: v in sources ==> layer[v] == 0
  {
    var feedback;
    ghost var rank, pushed;
    feedback, rank, pushed := FeedbackEdges.FeedbackEdges(nodes, edges);
    back := feedback;
    DescentIsAcyclic(edges, Positions(|edges|) - back, rank, NodeSet(nodes));
    var settled;
    layer, settled := Settle(nodes, edges, feedback, rank);
    layer := PutFirst(layer, sources);
  }

  method PutFirst(start: map<Node, int>, sources: seq<Node>) returns (layer: map<Node, int>)
    ensures layer.Keys == start.Keys + NodeSet(sources)
    ensures forall v :: v in layer ==> layer[v] == if v in sources then 0 else start[v]
  {
    layer := start;
    for i := 0 to |sources|
      invariant layer.Keys == start.Keys + NodeSet(sources[..i])
      invariant forall v :: v in layer ==> layer[v] == if v in sources[..i] then 0 else start[v]
    {
      layer := layer[sources[i] := 0];
    }
    assert sources[..|sources|] == sources;
  }

  lemma NodeSetSize(nodes: seq<Node>)
    ensures |NodeSet(nodes)| <= |nodes|
  {
    if nodes != [] {
      var front := nodes[..|nodes| - 1];
      NodeSetSize(front);
      assert NodeSet(nodes) == NodeSet(front) + {nodes[|nodes| - 1]};
    }
  }

  lemma FlatStart(edges: seq<Edge>, keep: set<nat>, layer: map<Node, int>)
    requires forall v :: v in layer ==> layer[v] == 0
    ensures Attained(edges, keep, layer) && Covers(edges, keep, layer, 0)
  {
    forall v | v in layer ensures exists a, p :: Walk(edges, keep, a, p, v) && |p| == layer[v] {
      assert Walk(edges, keep, v, [], v);
    }
  }

  lemma FixpointIsLongest(edges: seq<Edge>, keep: set<nat>, rank: map<Node, nat>, layer: map<Node, int>)
    requires Attained(edges, keep, layer) && Ascends(edges, keep, layer)
    requires Skeleton(layer.Keys, edges, keep, rank)
    ensures forall v :: v in layer ==> Longest(edges, keep, v, layer[v])
  {
    forall n | n in layer ensures layer[n] >= 0 {
      var a, p := AttainedWalk(edges, keep, layer, n);
    }
    forall v, a, p | v in layer && Walk(edges, keep, a, p, v) ensures |p| <= layer[v] {
      FixpointBounds(edges, keep, layer, a, p, v);
    }
  }

  /** Layers ascend along every edge that is left exactly when none of them enters a source. */
  lemma AscendsIffSourcesAreFirst(edges: seq<Edge>, keep: set<nat>, sources: seq<Node>, layer: map<Node, int>)
    requires forall e :: e in keep ==> e < |edges| && edges[e].src in layer && edges[e].dst in layer
    requires forall v :: v in layer && v !in sources ==> Longest(edges, keep, v, layer[v])
    requires forall v :: v in layer && v in sources ==> layer[v] == 0
    ensures Ascends(edges, keep, layer) <==> forall e :: e in keep ==> edges[e].dst !in sources
  {
    forall e | e in keep ensures layer[edges[e].src] >= 0 {
      LongestIsNonnegative(edges, keep, sources, layer, edges[e].src);
    }
    forall e | e in keep && edges[e].dst !in sources ensures layer[edges[e].src] < layer[edges[e].dst] {
      LongestStep(edges, keep, sources, layer, e);
    }
  }

  lemma LongestIsNonnegative(edges: seq<Edge>, keep: set<nat>, sources: seq<Node>, layer: map<Node, int>, v: Node)
    requires v in layer && if v in sources then layer[v] == 0 else Longest(edges, keep, v, layer[v])
    ensures layer[v] >= 0
  {
  }

  lemma LongestStep(edges: seq<Edge>, keep: set<nat>, sources: seq<Node>, layer: map<Node, int>, e: nat)
    requires e in keep && e < |edges| && edges[e].src in layer && edges[e].dst in layer
    requires var v := edges[e].src; if v in sources then layer[v] == 0 else Longest(edges, keep, v, layer[v])
    requires Longest(edges, keep, edges[e].dst, layer[edges[e].dst])
    ensures layer[edges[e].src] < layer[edges[e].dst]
  {
    var src := edges[e].src;
    var a, p := src, [];
    if src !in sources {
      a, p :| Walk(edges, keep, a, p, src) && |p| == layer[src];
    }
    WalkStep(edges, keep, a, p, e);
    assert |p + [e]| == layer[src] + 1;
  }
}
