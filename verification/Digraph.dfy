/**
  Directed multigraphs given as a list of edges, as `diagrams.py` holds them.

  An edge is known by its position in the list, so two parallel edges stay apart.
  Walks are sequences of edge positions; everything the layout promises is stated
  with them.
  */
module Digraph {
  import opened Basics

  type Node = string

  /** One arrow of the block diagram; `nets` are the nets the arrow stands for. */
  datatype Edge = Edge(src: Node, dst: Node, nets: seq<string>)

  /** The positions 0 .. n-1. */
  ghost function Positions(n: nat): (s: set<nat>)
    ensures forall e: nat :: e in s <==> e < n
  {
    if n == 0 then {} else Positions(n - 1) + {n - 1}
  }

  /** `p` leads from `a` to `b` over edges whose positions are in `keep`. */
  ghost predicate Walk(edges: seq<Edge>, keep: set<nat>, a: Node, p: seq<nat>, b: Node) {
    if p == [] then a == b
    else
      var last := p[|p| - 1];
      last in keep && last < |edges| && edges[last].dst == b &&
      Walk(edges, keep, a, p[..|p| - 1], edges[last].src)
  }

  /** No closed walk over `keep` passes through a node of `region`. */
  ghost predicate AcyclicAround(edges: seq<Edge>, keep: set<nat>, region: set<Node>) {
    forall a, p :: a in region && p != [] ==> !Walk(edges, keep, a, p, a)
  }

  /** Every kept edge that leaves a ranked node leads to a node of smaller rank. */
  ghost predicate Descends(edges: seq<Edge>, keep: set<nat>, rank: map<Node, nat>) {
    forall e :: e in keep && e < |edges| && edges[e].src in rank ==>
      edges[e].dst in rank && rank[edges[e].dst] < rank[edges[e].src]
  }

  lemma WalkStep(edges: seq<Edge>, keep: set<nat>, a: Node, p: seq<nat>, e: nat)
    requires e in keep && e < |edges|
    requires Walk(edges, keep, a, p, edges[e].src)
    ensures Walk(edges, keep, a, p + [e], edges[e].dst)
  {
    assert (p + [e])[..|p|] == p;
  }

  lemma {:induction false} WalkMonotone(edges: seq<Edge>, keep: set<nat>, more: set<nat>, a: Node, p: seq<nat>, b: Node)
    requires keep <= more && Walk(edges, keep, a, p, b)
    ensures Walk(edges, more, a, p, b)
    decreases |p|
  {
    if p != [] {
      WalkMonotone(edges, keep, more, a, p[..|p| - 1], edges[p[|p| - 1]].src);
    }
  }

  lemma {:induction false} WalkInRange(edges: seq<Edge>, keep: set<nat>, a: Node, p: seq<nat>, b: Node)
    requires Walk(edges, keep, a, p, b)
    ensures Walk(edges, Positions(|edges|), a, p, b)
    decreases |p|
  {
    if p != [] {
      WalkInRange(edges, keep, a, p[..|p| - 1], edges[p[|p| - 1]].src);
    }
  }

  lemma {:induction false} WalkJoin(edges: seq<Edge>, keep: set<nat>, a: Node, p: seq<nat>, b: Node, q: seq<nat>,
                                    c: Node)
    requires Walk(edges, keep, a, p, b) && Walk(edges, keep, b, q, c)
    ensures Walk(edges, keep, a, p + q, c)
    decreases |q|
  {
    if q == [] {
      assert p + q == p;
    } else {
      var front, last := q[..|q| - 1], q[|q| - 1];
      WalkJoin(edges, keep, a, p, b, front, edges[last].src);
      assert p + q == (p + front) + [last];
      WalkStep(edges, keep, a, p + front, last);
    }
  }

  /** Along a walk the rank falls by at least one per edge. */
  lemma {:induction false} WalkDescends(edges: seq<Edge>, keep: set<nat>, rank: map<Node, nat>, a: Node, p: seq<nat>,
                                        b: Node)
    requires Descends(edges, keep, rank) && a in rank
    requires Walk(edges, keep, a, p, b)
    ensures b in rank && rank[b] + |p| <= rank[a]
    decreases |p|
  {
    if p != [] {
      WalkDescends(edges, keep, rank, a, p[..|p| - 1], edges[p[|p| - 1]].src);
    }
  }

  lemma DescentIsAcyclic(edges: seq<Edge>, keep: set<nat>, rank: map<Node, nat>, region: set<Node>)
    requires Descends(edges, keep, rank) && region <= rank.Keys
    ensures AcyclicAround(edges, keep, region)
  {
    forall a, p | a in region && p != [] ensures !Walk(edges, keep, a, p, a) {
      if Walk(edges, keep, a, p, a) {
        WalkDescends(edges, keep, rank, a, p, a);
      }
    }
  }

  /** The nodes of `region` ranked above `b`. */
  ghost function Above(region: set<Node>, rank: map<Node, nat>, b: Node): set<Node>
    requires region <= rank.Keys && b in rank
  {
    set v | v in region && rank[v] > rank[b]
  }

  /** A walk inside `region` passes each node at most once, so it is shorter than `region`. */
  lemma {:induction false} WalkBound(edges: seq<Edge>, keep: set<nat>, rank: map<Node, nat>, region: set<Node>,
                                     a: Node, p: seq<nat>, b: Node)
    requires Descends(edges, keep, rank) && region <= rank.Keys && b in region
    requires forall e :: e in keep && e < |edges| ==> edges[e].src in region
    requires Walk(edges, keep, a, p, b)
    ensures |p| <= |Above(region, rank, b)| < |region|
    decreases |p|
  {
    ghost var above := Above(region, rank, b);
    assert above <= region - {b};
    SubsetCard(above, region - {b});
    if p != [] {
      var c := edges[p[|p| - 1]].src;
      WalkBound(edges, keep, rank, region, a, p[..|p| - 1], c);
      assert Above(region, rank, c) + {c} <= above;
      SubsetCard(Above(region, rank, c) + {c}, above);
    }
  }
}
