/** `_feedback_edges`: the edges an iterative depth-first search finds closing a cycle. */
module FeedbackEdges {
  import opened Digraph

  /** The children of `n` among the first `i` edges, each with its edge position, in edge order. */
  function ChildrenUpTo(edges: seq<Edge>, n: Node, i: nat): seq<(Node, nat)>
    requires i <= |edges|
  {
    if i == 0 then []
    else
      var cs := ChildrenUpTo(edges, n, i - 1);
      if edges[i - 1].src == n then cs + [(edges[i - 1].dst, i - 1)] else cs
  }

  function Children(edges: seq<Edge>, n: Node): seq<(Node, nat)> {
    ChildrenUpTo(edges, n, |edges|)
  }

  /** `Children` lists exactly the edges leaving `n`, each once. */
  lemma {:induction false} ChildrenAre(edges: seq<Edge>, n: Node, i: nat)
    requires i <= |edges|
    ensures var cs := ChildrenUpTo(edges, n, i);
            && (forall j :: 0 <= j < |cs| ==> cs[j].1 < i && edges[cs[j].1].src == n && edges[cs[j].1].dst == cs[j].0)
            && (forall j, k :: 0 <= j < k < |cs| ==> cs[j].1 < cs[k].1)
            && (forall e: nat :: e < i && edges[e].src == n ==> (edges[e].dst, e) in cs)
  {
    if i > 0 {
      ChildrenAre(edges, n, i - 1);
    }
  }

  function Lookup<V>(m: map<Node, V>, n: Node, default: V): V {
    if n in m then m[n] else default
  }

  method BuildAdjacency(edges: seq<Edge>) returns (adjacency: map<Node, seq<(Node, nat)>>)
    ensures forall n :: Lookup(adjacency, n, []) == Children(edges, n)
  {
    adjacency := map[];
    for index := 0 to |edges|
      invariant forall n :: Lookup(adjacency, n, []) == ChildrenUpTo(edges, n, index)
    {
      var src, dst := edges[index].src, edges[index].dst;
      adjacency := adjacency[src := Lookup(adjacency, src, []) + [(dst, index)]];
    }
  }

  // ----- The search state and its invariant

  /** `state` is 0 for unvisited, 1 for on the stack, 2 for done. A stack entry is a node
      and a cursor into its children. `tree` holds the edges that were followed, `rank`
      the finishing order. */
  datatype Search = Search(state: map<Node, int>, stack: seq<(Node, nat)>, back: set<nat>,
                           tree: set<nat>, rank: map<Node, nat>)

  predicate Visited(s: Search, n: Node) {
    n in s.state && s.state[n] != 0
  }

  ghost predicate OnStack(s: Search, n: Node) {
    exists k :: 0 <= k < |s.stack| && s.stack[k].0 == n
  }

  /** The three states mean what their names say. */
  ghost predicate Phases(s: Search) {
    && (forall n :: n in s.state ==> 0 <= s.state[n] <= 2)
    && (forall n :: n in s.rank <==> n in s.state && s.state[n] == 2)
    && (forall n :: n in s.rank ==> s.rank[n] < |s.rank|)
  }

  ghost predicate StackIsOpen(s: Search) {
    && (forall k :: 0 <= k < |s.stack| ==> s.stack[k].0 in s.state && s.state[s.stack[k].0] == 1)
    && (forall i, j :: 0 <= i < j < |s.stack| ==> s.stack[i].0 != s.stack[j].0)
  }

  ghost predicate OpenIsOnStack(s: Search) {
    forall n :: n in s.state && s.state[n] == 1 ==> OnStack(s, n)
  }

  ghost predicate StatesOk(s: Search) {
    Phases(s) && StackIsOpen(s) && OpenIsOnStack(s)
  }

  /** Child `j` of stack entry `k` is behind the cursor, and dealt with: its edge was set
      aside, the child is done, or it is the one being searched, next on the stack. */
  ghost predicate Behind(edges: seq<Edge>, s: Search, k: nat, j: nat)
    requires k < |s.stack|
  {
    var cs := Children(edges, s.stack[k].0);
    j < |cs| &&
    (cs[j].1 in s.back || cs[j].0 in s.rank ||
     (k + 1 < |s.stack| && j + 1 == s.stack[k].1 && cs[j].0 == s.stack[k + 1].0))
  }

  ghost predicate CursorsOk(edges: seq<Edge>, s: Search) {
    forall k, j: nat :: 0 <= k < |s.stack| && j < s.stack[k].1 ==> Behind(edges, s, k, j)
  }

  /** The edge that took the search from stack entry `k` to the next one. */
  ghost predicate Link(edges: seq<Edge>, s: Search, k: nat)
    requires k + 1 < |s.stack|
  {
    exists e: nat :: e in s.tree && e < |edges| && edges[e].src == s.stack[k].0 && edges[e].dst == s.stack[k + 1].0
  }

  ghost predicate LinksOk(edges: seq<Edge>, s: Search) {
    forall k: nat :: k + 1 < |s.stack| ==> Link(edges, s, k)
  }

  /** Edge `e` has been looked at: its source is done, or its cursor has passed it. */
  ghost predicate Seen(edges: seq<Edge>, s: Search, e: nat) {
    e < |edges| &&
    (edges[e].src in s.rank ||
     exists k :: 0 <= k < |s.stack| && s.stack[k].0 == edges[e].src && PassedBy(edges, s.stack[k], e))
  }

  ghost predicate PassedBy(edges: seq<Edge>, entry: (Node, nat), e: nat) {
    forall j :: entry.1 <= j < |Children(edges, entry.0)| ==> Children(edges, entry.0)[j].1 > e
  }

  /** Followed and set-aside edges are different edges, and have been looked at. */
  ghost predicate MarksOk(edges: seq<Edge>, s: Search) {
    s.tree !! s.back && forall e :: e in s.tree + s.back ==> Seen(edges, s, e)
  }

  /** Edge `b` leads back to the start of a walk over `keep` that ends where `b` starts. */
  ghost predicate Closes(edges: seq<Edge>, keep: set<nat>, b: nat) {
    b < |edges| && exists p :: Walk(edges, keep, edges[b].dst, p, edges[b].src)
  }

  ghost predicate BackOk(edges: seq<Edge>, s: Search) {
    forall b :: b in s.back ==> Closes(edges, s.tree, b)
  }

  ghost predicate Inv(edges: seq<Edge>, s: Search) {
    && StatesOk(s) && CursorsOk(edges, s) && LinksOk(edges, s) && MarksOk(edges, s) && BackOk(edges, s)
    && Descends(edges, Positions(|edges|) - s.back, s.rank)
  }

  // ----- The three moves of the search

  function Top(s: Search): (Node, nat)
    requires s.stack != []
  {
    s.stack[|s.stack| - 1]
  }

  /** The top node has no child left: it is done. */
  function Pop(s: Search): Search
    requires s.stack != []
  {
    s.(state := s.state[Top(s).0 := 2], stack := s.stack[..|s.stack| - 1], rank := s.rank[Top(s).0 := |s.rank|])
  }

  /** The cursor of the top entry moves on; edges in `closing` are set aside. */
  function Advance(s: Search, closing: set<nat>): Search
    requires s.stack != []
  {
    s.(stack := s.stack[|s.stack| - 1 := (Top(s).0, Top(s).1 + 1)], back := s.back + closing)
  }

  /** The search follows edge `e` to the unvisited `child`. */
  function Push(s: Search, child: Node, e: nat): Search
    requires s.stack != []
  {
    s.(state := s.state[child := 1], stack := Advance(s, {}).stack + [(child, 0)], tree := s.tree + {e})
  }

  lemma PopKeepsStates(s: Search)
    requires StatesOk(s) && s.stack != []
    ensures StatesOk(Pop(s))
  {
    var t, n := Pop(s), Top(s).0;
    assert n !in s.rank;
    forall m | m in t.state && t.state[m] == 1 ensures OnStack(t, m) {
      var k :| 0 <= k < |s.stack| && s.stack[k].0 == m;
      assert t.stack[k].0 == m;
    }
  }

  lemma PopDescends(edges: seq<Edge>, s: Search)
    requires StatesOk(s) && CursorsOk(edges, s) && s.stack != [] && Top(s).1 >= |Children(edges, Top(s).0)|
    requires Descends(edges, Positions(|edges|) - s.back, s.rank)
    ensures Descends(edges, Positions(|edges|) - s.back, Pop(s).rank)
  {
    var t, n := Pop(s), Top(s).0;
    assert n !in s.rank;
    forall e: nat | e in Positions(|edges|) - s.back && edges[e].src in t.rank
      ensures edges[e].dst in t.rank && t.rank[edges[e].dst] < t.rank[edges[e].src]
    {
      if edges[e].src == n {
        ChildrenAre(edges, n, |edges|);
        var j :| 0 <= j < |Children(edges, n)| && Children(edges, n)[j] == (edges[e].dst, e);
        assert Behind(edges, s, |s.stack| - 1, j);
      }
    }
  }

  lemma PopKeeps(edges: seq<Edge>, s: Search)
    requires Inv(edges, s) && s.stack != [] && Top(s).1 >= |Children(edges, Top(s).0)|
    ensures Inv(edges, Pop(s))
  {
    var t := Pop(s);
    PopKeepsStates(s);
    PopDescends(edges, s);
    assert CursorsOk(edges, t) by {
      forall k, j: nat | 0 <= k < |t.stack| && j < t.stack[k].1 ensures Behind(edges, t, k, j) {
        assert t.stack[k] == s.stack[k];
        assert Behind(edges, s, k, j);
      }
    }
    assert LinksOk(edges, t) by {
      forall k: nat | k + 1 < |t.stack| ensures Link(edges, t, k) {
        assert Link(edges, s, k);
      }
    }
    assert MarksOk(edges, t) by {
      forall e | e in t.tree + t.back ensures Seen(edges, t, e) {
        assert Seen(edges, s, e);
        if edges[e].src !in t.rank {
          var k :| 0 <= k < |s.stack| && s.stack[k].0 == edges[e].src && PassedBy(edges, s.stack[k], e);
          assert t.stack[k] == s.stack[k];
        }
      }
    }
  }

  /** The stack spells a walk from any of its entries to the top one. */
  lemma {:induction false} StackWalk(edges: seq<Edge>, s: Search, i: nat, top: nat) returns (p: seq<nat>)
    requires LinksOk(edges, s) && i <= top < |s.stack|
    ensures Walk(edges, s.tree, s.stack[i].0, p, s.stack[top].0)
    decreases top
  {
    if i == top {
      p := [];
    } else {
      p := StackWalk(edges, s, i, top - 1);
      assert Link(edges, s, top - 1);
      var e: nat :| e in s.tree && e < |edges| && edges[e].src == s.stack[top - 1].0 && edges[e].dst == s.stack[top].0;
      WalkStep(edges, s.tree, s.stack[i].0, p, e);
      p := p + [e];
    }
  }

  lemma {:induction false} ChildIs(edges: seq<Edge>, n: Node, i: nat, j: nat)
    requires i <= |edges| && j < |ChildrenUpTo(edges, n, i)|
    ensures var c := ChildrenUpTo(edges, n, i)[j]; c.1 < i && edges[c.1].src == n && edges[c.1].dst == c.0
  {
    if j < |ChildrenUpTo(edges, n, i - 1)| {
      ChildIs(edges, n, i - 1, j);
    }
  }

  lemma {:induction false} ChildrenInOrder(edges: seq<Edge>, n: Node, i: nat, j: nat, k: nat)
    requires i <= |edges| && j < k < |ChildrenUpTo(edges, n, i)|
    ensures ChildrenUpTo(edges, n, i)[j].1 < ChildrenUpTo(edges, n, i)[k].1
  {
    if k < |ChildrenUpTo(edges, n, i - 1)| {
      ChildrenInOrder(edges, n, i - 1, j, k);
    } else {
      ChildIs(edges, n, i - 1, j);
    }
  }

  lemma ChildAt(edges: seq<Edge>, n: Node, j: nat)
    requires j < |Children(edges, n)|
    ensures var c := Children(edges, n)[j];
            && c.1 < |edges| && edges[c.1].src == n && edges[c.1].dst == c.0
            && PassedBy(edges, (n, j + 1), c.1)
  {
    ChildIs(edges, n, |edges|, j);
    forall k | j + 1 <= k < |Children(edges, n)| ensures Children(edges, n)[k].1 > Children(edges, n)[j].1 {
      ChildrenInOrder(edges, n, |edges|, j, k);
    }
  }

  /** The edge at the cursor has not been looked at before; once the cursor has moved, it has. */
  lemma CursorEdge(edges: seq<Edge>, s: Search)
    requires StatesOk(s) && MarksOk(edges, s) && s.stack != [] && Top(s).1 < |Children(edges, Top(s).0)|
    ensures var c := Children(edges, Top(s).0)[Top(s).1];
            && c.1 < |edges| && edges[c.1].src == Top(s).0 && edges[c.1].dst == c.0
            && c.1 !in s.tree + s.back
            && PassedBy(edges, (Top(s).0, Top(s).1 + 1), c.1)
  {
    hide Children;
    ChildAt(edges, Top(s).0, Top(s).1);
    var c := Children(edges, Top(s).0)[Top(s).1];
    if Seen(edges, s, c.1) {
      var k :| 0 <= k < |s.stack| && s.stack[k].0 == edges[c.1].src && PassedBy(edges, s.stack[k], c.1);
      assert false;
    }
  }

  /** `t` is `s` with the cursor of its top entry moved past child `c`, and at most the
      entry for `c` pushed. */
  ghost predicate Moved(s: Search, t: Search, c: (Node, nat)) {
    && s.stack != [] && t.rank == s.rank && s.tree <= t.tree && s.back <= t.back
    && t.tree <= s.tree + {c.1} && t.back <= s.back + {c.1}
    && |s.stack| <= |t.stack| <= |s.stack| + 1
    && (forall k :: 0 <= k < |s.stack| - 1 ==> t.stack[k] == s.stack[k])
    && t.stack[|s.stack| - 1] == (Top(s).0, Top(s).1 + 1)
    && (|t.stack| > |s.stack| ==> t.stack[|s.stack|] == (c.0, 0) && c.1 in t.tree)
  }

  lemma MovedCursors(edges: seq<Edge>, s: Search, t: Search, c: (Node, nat))
    requires CursorsOk(edges, s) && Moved(s, t, c)
    requires Top(s).1 < |Children(edges, Top(s).0)| && c == Children(edges, Top(s).0)[Top(s).1]
    requires c.1 in t.back || c.0 in t.rank || |t.stack| > |s.stack|
    ensures CursorsOk(edges, t)
  {
    forall k, j: nat | 0 <= k < |t.stack| && j < t.stack[k].1 ensures Behind(edges, t, k, j) {
      if k < |s.stack| - 1 || j < Top(s).1 {
        assert Behind(edges, s, k, j);
      }
    }
  }

  lemma MovedLinks(edges: seq<Edge>, s: Search, t: Search, c: (Node, nat))
    requires LinksOk(edges, s) && Moved(s, t, c)
    requires c.1 < |edges| && edges[c.1].src == Top(s).0 && edges[c.1].dst == c.0
    ensures LinksOk(edges, t)
  {
    forall k: nat | k + 1 < |t.stack| ensures Link(edges, t, k) {
      if k < |s.stack| - 1 {
        assert Link(edges, s, k);
      } else {
        assert c.1 in t.tree;
      }
    }
  }

  lemma MovedMarks(edges: seq<Edge>, s: Search, t: Search, c: (Node, nat))
    requires MarksOk(edges, s) && Moved(s, t, c)
    requires c.1 !in s.tree + s.back && (t.tree == s.tree || t.back == s.back)
    requires c.1 < |edges| && edges[c.1].src == Top(s).0
    requires PassedBy(edges, (Top(s).0, Top(s).1 + 1), c.1)
    ensures MarksOk(edges, t)
  {
    var top := |s.stack| - 1;
    forall e | e in t.tree + t.back ensures Seen(edges, t, e) {
      if e == c.1 {
        assert PassedBy(edges, t.stack[top], e);
      } else {
        assert Seen(edges, s, e);
        if edges[e].src !in s.rank {
          var k :| 0 <= k < |s.stack| && s.stack[k].0 == edges[e].src && PassedBy(edges, s.stack[k], e);
          assert PassedBy(edges, t.stack[k], e);
        }
      }
    }
  }

  lemma StillOnStack(s: Search, t: Search, n: Node)
    requires OnStack(s, n) && |s.stack| <= |t.stack|
    requires forall k :: 0 <= k < |s.stack| ==> t.stack[k].0 == s.stack[k].0
    ensures OnStack(t, n)
  {
    var k :| 0 <= k < |s.stack| && s.stack[k].0 == n;
    assert t.stack[k].0 == n;
  }

  /** What the edge at the cursor calls for when its target has been visited. */
  ghost predicate Settled(edges: seq<Edge>, s: Search, closing: set<nat>)
    requires s.stack != [] && Top(s).1 < |Children(edges, Top(s).0)|
  {
    var c := Children(edges, Top(s).0)[Top(s).1];
    if c.0 in s.state && s.state[c.0] == 1 then closing == {c.1}
    else c.0 in s.state && s.state[c.0] == 2 && closing == {}
  }

  lemma AdvanceKeeps(edges: seq<Edge>, s: Search, closing: set<nat>)
    requires Inv(edges, s) && s.stack != [] && Top(s).1 < |Children(edges, Top(s).0)|
    requires Settled(edges, s, closing)
    ensures Inv(edges, Advance(s, closing))
  {
    hide CursorsOk, LinksOk, MarksOk;
    var t := Advance(s, closing);
    var c := Children(edges, Top(s).0)[Top(s).1];
    CursorEdge(edges, s);
    MovedCursors(edges, s, t, c);
    MovedLinks(edges, s, t, c);
    MovedMarks(edges, s, t, c);
    AdvanceKeepsStates(s, closing);
    if closing != {} {
      assert OnStack(s, c.0);
      AdvanceCloses(edges, s, c);
    }
  }

  lemma AdvanceKeepsStates(s: Search, closing: set<nat>)
    requires StatesOk(s) && s.stack != []
    ensures StatesOk(Advance(s, closing))
  {
    var t := Advance(s, closing);
    forall m | m in t.state && t.state[m] == 1 ensures OnStack(t, m) {
      StillOnStack(s, t, m);
    }
  }

  lemma AdvanceCloses(edges: seq<Edge>, s: Search, c: (Node, nat))
    requires LinksOk(edges, s) && s.stack != [] && OnStack(s, c.0)
    requires c.1 < |edges| && edges[c.1].src == Top(s).0 && edges[c.1].dst == c.0
    ensures Closes(edges, s.tree, c.1)
  {
    var i :| 0 <= i < |s.stack| && s.stack[i].0 == c.0;
    var p := StackWalk(edges, s, i, |s.stack| - 1);
    assert Walk(edges, s.tree, edges[c.1].dst, p, edges[c.1].src);
  }

  lemma ClosesGrows(edges: seq<Edge>, keep: set<nat>, more: set<nat>, b: nat)
    requires keep <= more && Closes(edges, keep, b)
    ensures Closes(edges, more, b)
  {
    var p :| Walk(edges, keep, edges[b].dst, p, edges[b].src);
    WalkMonotone(edges, keep, more, edges[b].dst, p, edges[b].src);
  }

  lemma PushKeeps(edges: seq<Edge>, s: Search)
    requires Inv(edges, s) && s.stack != [] && Top(s).1 < |Children(edges, Top(s).0)|
    requires !Visited(s, Children(edges, Top(s).0)[Top(s).1].0)
    ensures var c := Children(edges, Top(s).0)[Top(s).1]; Inv(edges, Push(s, c.0, c.1))
  {
    hide StatesOk, CursorsOk, LinksOk, MarksOk, BackOk;
    var c := Children(edges, Top(s).0)[Top(s).1];
    var t := Push(s, c.0, c.1);
    CursorEdge(edges, s);
    MovedCursors(edges, s, t, c);
    MovedLinks(edges, s, t, c);
    MovedMarks(edges, s, t, c);
    PushKeepsStates(s, c.0, c.1);
    BackGrows(edges, s, t);
  }

  lemma BackGrows(edges: seq<Edge>, s: Search, t: Search)
    requires BackOk(edges, s) && s.tree <= t.tree && s.back == t.back
    ensures BackOk(edges, t)
  {
    forall b | b in t.back ensures Closes(edges, t.tree, b) {
      ClosesGrows(edges, s.tree, t.tree, b);
    }
  }

  lemma PushKeepsStates(s: Search, child: Node, e: nat)
    requires StatesOk(s) && s.stack != [] && !Visited(s, child)
    ensures StatesOk(Push(s, child, e))
  {
    var t := Push(s, child, e);
    assert t.stack[|s.stack|].0 == child;
    PushStaysOpen(s, t, child);
    forall m | m in t.state && t.state[m] == 1 ensures OnStack(t, m) {
      if m != child {
        StillOnStack(s, t, m);
      }
    }
  }

  lemma PushStaysOpen(s: Search, t: Search, child: Node)
    requires StackIsOpen(s) && !Visited(s, child) && t.state == s.state[child := 1]
    requires |t.stack| == |s.stack| + 1 && t.stack[|s.stack|].0 == child
    requires forall k :: 0 <= k < |s.stack| ==> t.stack[k].0 == s.stack[k].0
    ensures StackIsOpen(t)
  {
    forall i, j | 0 <= i < j < |t.stack| ensures t.stack[i].0 != t.stack[j].0 {
      assert s.stack[i].0 in s.state;
    }
  }

  // ----- The search itself

  /** One turn of the search loop. */
  function Turn(edges: seq<Edge>, s: Search): Search
    requires s.stack != []
  {
    var children := Children(edges, Top(s).0);
    if Top(s).1 >= |children| then Pop(s)
    else
      var (child, e) := children[Top(s).1];
      if Lookup(s.state, child, 0) == 1 then Advance(s, {e})
      else if Lookup(s.state, child, 0) == 0 then Push(s, child, e)
      else Advance(s, {})
  }

  /** What a turn does to each of the variables of the loop. */
  lemma TurnIs(edges: seq<Edge>, s: Search)
    requires s.stack != []
    ensures var (n, cursor) := Top(s); var children := Children(edges, n); var t := Turn(edges, s);
            var moved := s.stack[|s.stack| - 1 := (n, cursor + 1)];
            if cursor >= |children| then
              t.state == s.state[n := 2] && t.stack == s.stack[..|s.stack| - 1] && t.back == s.back
            else
              var (child, e) := children[cursor];
              if Lookup(s.state, child, 0) == 1 then t.state == s.state && t.stack == moved && t.back == s.back + {e}
              else if Lookup(s.state, child, 0) == 0 then
                t.state == s.state[child := 1] && t.stack == moved + [(child, 0)] && t.back == s.back
              else t.state == s.state && t.stack == moved && t.back == s.back
  {
    hide Children;
  }

  lemma TurnKeeps(edges: seq<Edge>, s: Search)
    requires Inv(edges, s) && s.stack != []
    ensures Inv(edges, Turn(edges, s))
  {
    var children := Children(edges, Top(s).0);
    if Top(s).1 >= |children| {
      PopKeeps(edges, s);
    } else {
      var (child, e) := children[Top(s).1];
      if Lookup(s.state, child, 0) == 1 {
        AdvanceKeeps(edges, s, {e});
      } else if Lookup(s.state, child, 0) == 0 {
        PushKeeps(edges, s);
      } else {
        AdvanceKeeps(edges, s, {});
      }
    }
  }

  /** The targets of edges: beyond its root, the search meets no other node. */
  ghost function Targets(edges: seq<Edge>): set<Node> {
    set i | 0 <= i < |edges| :: edges[i].dst
  }

  ghost function Unvisited(edges: seq<Edge>, state: map<Node, int>): set<Node> {
    set n | n in Targets(edges) && Lookup(state, n, 0) == 0
  }

  /** Every turn visits a node, or else finishes one, or else moves a cursor. */
  lemma TurnProgresses(edges: seq<Edge>, s: Search)
    requires Inv(edges, s) && s.stack != []
    ensures Lookup(s.state, Top(s).0, 0) == 1
    ensures var t := Turn(edges, s);
            || Unvisited(edges, t.state) < Unvisited(edges, s.state)
            || (Unvisited(edges, t.state) == Unvisited(edges, s.state) && |t.stack| < |s.stack|)
            || (Unvisited(edges, t.state) == Unvisited(edges, s.state) && |t.stack| == |s.stack|
                && Top(t).0 == Top(s).0 && Top(s).1 < Top(t).1 <= |Children(edges, Top(s).0)|)
  {
    hide CursorsOk, LinksOk, MarksOk, BackOk, Descends;
    var t := Turn(edges, s);
    var n := Top(s).0;
    assert Lookup(s.state, n, 0) == 1;
    if Top(s).1 < |Children(edges, n)| {
      CursorEdge(edges, s);
      var (child, e) := Children(edges, n)[Top(s).1];
      if Lookup(s.state, child, 0) == 0 {
        assert child in Unvisited(edges, s.state) && child !in Unvisited(edges, t.state);
      }
    }
  }

  /** `pushed` lists every visited node once. */
  ghost predicate PushedOnce(pushed: seq<Node>, state: map<Node, int>) {
    && (forall i, j :: 0 <= i < j < |pushed| ==> pushed[i] != pushed[j])
    && (forall n :: n in pushed <==> Lookup(state, n, 0) != 0)
  }

  ghost predicate Includes(pushed: seq<Node>, earlier: seq<Node>) {
    forall n :: n in earlier ==> n in pushed
  }

  lemma PushedGrows(pushed: seq<Node>, state: map<Node, int>, n: Node, earlier: seq<Node>)
    requires PushedOnce(pushed, state) && Lookup(state, n, 0) == 0 && Includes(pushed, earlier)
    ensures PushedOnce(pushed + [n], state[n := 1])
    ensures Includes(pushed + [n], earlier) && Includes(pushed + [n], earlier + [n])
  {
  }

  lemma PushedStays(pushed: seq<Node>, state: map<Node, int>, n: Node)
    requires PushedOnce(pushed, state) && Lookup(state, n, 0) == 1
    ensures PushedOnce(pushed, state[n := 2])
  {
  }

  /** The search from one unvisited root, with the stack the loop works on. */
  method Explore(edges: seq<Edge>, adjacency: map<Node, seq<(Node, nat)>>, root: Node,
                 ghost before: Search, visited: map<Node, int>, found: set<nat>, ghost pushedBefore: seq<Node>)
    returns (state: map<Node, int>, back: set<nat>, ghost after: Search, ghost pushed: seq<Node>)
    requires forall n :: Lookup(adjacency, n, []) == Children(edges, n)
    requires Inv(edges, before) && before.stack == [] && before.state == visited && before.back == found
    requires Lookup(visited, root, 0) == 0 && PushedOnce(pushedBefore, visited)
    ensures Inv(edges, after) && after.stack == [] && after.state == state && after.back == back
    ensures PushedOnce(pushed, state) && Includes(pushed, pushedBefore + [root])
  {
    hide Inv, PushedOnce, Includes, Unvisited, Children, Turn;
    var stack: seq<(Node, nat)> := [(root, 0)];
    state, back := visited[root := 1], found;
    ghost var s := before.(state := state, stack := stack);
    RootKeeps(edges, before, root);
    PushedGrows(pushedBefore, visited, root, pushedBefore);
    pushed := pushedBefore + [root];
    while stack != []
      invariant Inv(edges, s) && s.state == state && s.stack == stack && s.back == back
      invariant PushedOnce(pushed, state) && Includes(pushed, pushedBefore + [root])
      decreases Unvisited(edges, state), |stack|,
                if stack == [] then 0 else |Children(edges, stack[|stack| - 1].0)| - stack[|stack| - 1].1
    {
      TurnKeeps(edges, s);
      TurnProgresses(edges, s);
      TurnIs(edges, s);
      s := Turn(edges, s);
      var (node, cursor) := stack[|stack| - 1];
      var children := Lookup(adjacency, node, []);
      if cursor >= |children| {
        PushedStays(pushed, state, node);
        state := state[node := 2];
        stack := stack[..|stack| - 1];
        continue;
      }
      stack := stack[|stack| - 1 := (node, cursor + 1)];
      var (child, edgeIndex) := children[cursor];
      if Lookup(state, child, 0) == 1 {
        back := back + {edgeIndex};
      } else if Lookup(state, child, 0) == 0 {
        PushedGrows(pushed, state, child, pushedBefore + [root]);
        state := state[child := 1];
        stack := stack + [(child, 0)];
        pushed := pushed + [child];
      }
    }
    after := s;
  }

  lemma RootKeeps(edges: seq<Edge>, s: Search, root: Node)
    requires Inv(edges, s) && s.stack == [] && !Visited(s, root)
    ensures Inv(edges, s.(state := s.state[root := 1], stack := [(root, 0)]))
  {
    var t := s.(state := s.state[root := 1], stack := [(root, 0)]);
    assert StatesOk(t) by {
      forall n | n in t.state && t.state[n] == 1 ensures OnStack(t, n) {
        assert n != root ==> OnStack(s, n);
        assert t.stack[0].0 == root;
      }
    }
    forall e | e in t.tree + t.back ensures Seen(edges, t, e) {
      assert Seen(edges, s, e);
    }
  }

  /** The edges set aside are those a depth-first search from `nodes`, in order, finds
      leading back onto its own stack. Without them no cycle touches `nodes`, and each
      of them alone, put back, closes a cycle again. */
  method FeedbackEdges(nodes: seq<Node>, edges: seq<Edge>)
    returns (back: set<nat>, ghost rank: map<Node, nat>, ghost pushed: seq<Node>)
    ensures forall n :: n in nodes ==> n in rank
    ensures Descends(edges, Positions(|edges|) - back, rank)
    ensures forall b :: b in back ==> Closes(edges, Positions(|edges|) - back, b)
    ensures forall i, j :: 0 <= i < j < |pushed| ==> pushed[i] != pushed[j]
    ensures forall n :: n in pushed <==> n in rank
  {
    hide Inv, Children;
    var adjacency := BuildAdjacency(edges);
    var state: map<Node, int> := map n | n in nodes :: 0;
    back := {};
    pushed := [];
    ghost var s := Search(state, [], {}, {}, map[]);
    SearchBegins(nodes, edges, state);
    for r := 0 to |nodes|
      invariant Inv(edges, s) && s.stack == [] && s.state == state && s.back == back
      invariant PushedOnce(pushed, state)
      invariant forall i :: 0 <= i < r ==> nodes[i] in pushed
    {
      ghost var earlier := pushed;
      if Lookup(state, nodes[r], 0) != 0 {
        assert nodes[r] in pushed;
        continue;
      }
      state, back, s, pushed := Explore(edges, adjacency, nodes[r], s, state, back, pushed);
      assert forall n :: n in earlier + [nodes[r]] ==> n in pushed;
    }
    rank := s.rank;
    SearchDone(edges, s, pushed);
  }

  /** What the invariant amounts to once the stack is empty. */
  lemma {:induction false} SearchDone(edges: seq<Edge>, s: Search, pushed: seq<Node>)
    requires Inv(edges, s) && s.stack == [] && PushedOnce(pushed, s.state)
    ensures Descends(edges, Positions(|edges|) - s.back, s.rank)
    ensures forall b :: b in s.back ==> Closes(edges, Positions(|edges|) - s.back, b)
    ensures forall i, j :: 0 <= i < j < |pushed| ==> pushed[i] != pushed[j]
    ensures forall n :: n in pushed <==> n in s.rank
    ensures forall n :: n in s.rank <==> Lookup(s.state, n, 0) != 0
  {
    assert forall n :: n in s.state && s.state[n] == 1 ==> OnStack(s, n);
    forall b | b in s.back ensures Closes(edges, Positions(|edges|) - s.back, b) {
      assert forall e :: e in s.tree ==> Seen(edges, s, e);
      ClosesGrows(edges, s.tree, Positions(|edges|) - s.back, b);
    }
  }

  lemma SearchBegins(nodes: seq<Node>, edges: seq<Edge>, state: map<Node, int>)
    requires state == map n | n in nodes :: 0
    ensures Inv(edges, Search(state, [], {}, {}, map[])) && PushedOnce([], state)
  {
  }

  /** Nothing is set aside exactly when the drawn graph has no cycle. */
  lemma NothingSetAsideIffAcyclic(nodes: set<Node>, edges: seq<Edge>, back: set<nat>, rank: map<Node, nat>)
    requires nodes <= rank.Keys && forall e :: e in edges ==> e.src in nodes
    requires Descends(edges, Positions(|edges|) - back, rank)
    requires forall b :: b in back ==> Closes(edges, Positions(|edges|) - back, b)
    ensures back == {} <==> AcyclicAround(edges, Positions(|edges|), nodes)
  {
    var all := Positions(|edges|);
    if back == {} {
      assert all - back == all;
      DescentIsAcyclic(edges, all, rank, nodes);
    } else {
      hide Descends, Walk;
      var b :| b in back;
      var p := ClosedWalk(edges, all - back, b);
      assert edges[b] in edges;
    }
  }

  /** An edge that closes a walk lies on a cycle. */
  lemma ClosedWalk(edges: seq<Edge>, keep: set<nat>, b: nat) returns (p: seq<nat>)
    requires Closes(edges, keep, b)
    ensures p != [] && Walk(edges, Positions(|edges|), edges[b].src, p, edges[b].src)
  {
    var a, all := edges[b].src, Positions(|edges|);
    var q :| Walk(edges, keep, edges[b].dst, q, a);
    WalkInRange(edges, keep, edges[b].dst, q, a);
    WalkStep(edges, all, a, [], b);
    WalkJoin(edges, all, a, [] + [b], edges[b].dst, q, a);
    p := [] + [b] + q;
  }
}
