/** `add_edge` and the depth-first search behind its cycle check. */
module CycleCheck {
  import opened Prelude

  type Edges<N> = seq<(N, N)>

  /** The targets of n's edges, in the order in which they were added. */
  function Targets<N(==)>(edges: Edges<N>, n: N): seq<N> {
    if edges == [] then []
    else
      var last := edges[|edges| - 1];
      Targets(edges[..|edges| - 1], n) + if last.0 == n then [last.1] else []
  }

  lemma {:induction false} TargetsAreEdges<N>(edges: Edges<N>, n: N, m: N)
    ensures m in Targets(edges, n) <==> (n, m) in edges
  {
    if edges != [] {
      assert edges == edges[..|edges| - 1] + [edges[|edges| - 1]];
      TargetsAreEdges(edges[..|edges| - 1], n, m);
    }
  }

  function Neighbors<N>(adjacency: map<N, seq<N>>, n: N): seq<N> {
    if n in adjacency then adjacency[n] else []
  }

  ghost predicate Mirrors<N(!new)>(adjacency: map<N, seq<N>>, edges: Edges<N>) {
    forall n :: Neighbors(adjacency, n) == Targets(edges, n)
  }

  method RebuildAdjacency<N(==, !new)>(edges: Edges<N>) returns (adjacency: map<N, seq<N>>)
    ensures Mirrors(adjacency, edges)
  {
    adjacency := map[];
    for i := 0 to |edges|
      invariant Mirrors(adjacency, edges[..i])
    {
      assert edges[..i + 1][..i] == edges[..i];
      var (source, target) := edges[i];
      adjacency := adjacency[source := Neighbors(adjacency, source) + [target]];
    }
    assert edges[..|edges|] == edges;
  }

  ghost predicate IsPath<N>(edges: Edges<N>, p: seq<N>) {
    forall i | 0 <= i < |p| - 1 :: p[i + 1] in Targets(edges, p[i])
  }

  ghost predicate IsCycle<N>(edges: Edges<N>, p: seq<N>) {
    |p| >= 2 && p[0] == p[|p| - 1] && IsPath(edges, p)
  }

  ghost predicate Cyclic<N(!new)>(edges: Edges<N>) { exists p :: IsCycle(edges, p) }

  /** Every edge of a listed node leads to a node listed before it. */
  ghost predicate Topological<N>(edges: Edges<N>, order: seq<N>) {
    forall k | 0 <= k < |order| :: forall m | m in Targets(edges, order[k]) :: m in order[..k]
  }

  /** The state of the search: `path` leads to the node in hand, `order` lists the finished nodes. */
  ghost predicate Searching<N(!new)>(
      edges: Edges<N>, visited: set<N>, stack: set<N>, path: seq<N>, order: seq<N>)
  {
    && IsPath(edges, path) && Topological(edges, order) && NoDuplicates(order)
    && (forall x :: x in stack <==> x in path)
    && (forall x :: x in visited <==> x in path || x in order)
    && (forall x | x in path :: x !in order)
  }

  /** What is left to visit lies among the known nodes. */
  ghost predicate Within<N>(edges: Edges<N>, nodes: set<N>) {
    forall e | e in edges :: e.0 in nodes && e.1 in nodes
  }

  lemma EnterNode<N(!new)>(
      edges: Edges<N>, visited: set<N>, stack: set<N>, path: seq<N>, order: seq<N>, n: N)
    requires Searching(edges, visited, stack, path, order) && n !in visited
    requires path != [] ==> n in Targets(edges, path[|path| - 1])
    ensures Searching(edges, visited + {n}, stack + {n}, path + [n], order)
  {
  }

  lemma LeaveNode<N(!new)>(
      edges: Edges<N>, visited: set<N>, stack: set<N>, path: seq<N>, order: seq<N>, n: N)
    requires Searching(edges, visited, stack, path + [n], order) && n !in path
    requires forall m | m in Targets(edges, n) :: m in order
    ensures Searching(edges, visited, stack - {n}, path, order + [n])
  {
    var path', order' := path + [n], order + [n];
    assert path'[|path|] == n;
    forall i | 0 <= i < |path| - 1 ensures path[i + 1] in Targets(edges, path[i]) {
      assert path'[i] == path[i] && path'[i + 1] == path[i + 1];
    }
    forall k | 0 <= k < |order'| ensures forall m | m in Targets(edges, order'[k]) :: m in order'[..k] {
      if k < |order| {
        assert order'[..k] == order[..k] && order'[k] == order[k];
      } else {
        assert order'[..k] == order;
      }
    }
    forall x ensures x in path' <==> x in path || x == n {}
    forall x ensures x in order' <==> x in order || x == n {}
  }

  lemma BackEdgeCloses<N(!new)>(
      edges: Edges<N>, visited: set<N>, stack: set<N>, path: seq<N>, order: seq<N>, n: N, m: N)
    returns (cycle: seq<N>)
    requires Searching(edges, visited, stack, path + [n], order) && m in stack && m in Targets(edges, n)
    ensures IsCycle(edges, cycle)
  {
    var p := path + [n];
    var k :| 0 <= k < |p| && p[k] == m;
    cycle := p[k..] + [m];
    forall i | 0 <= i < |cycle| - 1 ensures cycle[i + 1] in Targets(edges, cycle[i]) {
      if i < |p| - k - 1 {
        assert cycle[i] == p[k + i] && cycle[i + 1] == p[k + i + 1];
      } else {
        assert cycle[i] == p[|p| - 1] == n;
      }
    }
  }

  /** The inner function of `_has_cycle`. The two sets are passed along instead of being shared. */
  method Dfs<N(==, !new)>(
      adjacency: map<N, seq<N>>, n: N, visited: set<N>, stack: set<N>,
      ghost edges: Edges<N>, ghost nodes: set<N>, ghost path: seq<N>, ghost order: seq<N>)
    returns (found: bool, visited': set<N>, ghost order': seq<N>)
    requires Mirrors(adjacency, edges) && Within(edges, nodes)
    requires Searching(edges, visited, stack, path, order)
    requires n !in visited && n in nodes && visited <= nodes
    requires path != [] ==> n in Targets(edges, path[|path| - 1])
    ensures found ==> Cyclic(edges)
    ensures !found ==> Searching(edges, visited', stack, path, order') && n in order' && order <= order'
    ensures !found ==> visited <= visited' <= nodes
    decreases |nodes - visited|
  {
    hide Searching, IsCycle, Mirrors;
    EnterNode(edges, visited, stack, path, order, n);
    NotOnPath(edges, visited, stack, path, order, n);
    visited', order' := visited + {n}, order;
    var stack' := stack + {n};
    var neighbors := Neighbors(adjacency, n);
    assert neighbors == Targets(edges, n) by { MirrorsAt(adjacency, edges, n); }
    for i := 0 to |neighbors|
      invariant Searching(edges, visited', stack', path + [n], order')
      invariant order <= order' && visited + {n} <= visited' <= nodes
      invariant forall k | 0 <= k < i :: neighbors[k] in order'
    {
      var m := neighbors[i];
      assert m in nodes by { TargetsAreEdges(edges, n, m); }
      if m !in visited' {
        assert nodes - visited' < nodes - visited by { assert n in nodes - visited; }
        SmallerSet(nodes - visited', nodes - visited);
        ghost var before := order';
        found, visited', order' := Dfs(adjacency, m, visited', stack', edges, nodes, path + [n], order');
        if found { return; }
        assert forall k | 0 <= k < i :: neighbors[k] in before;
      } else if m in stack' {
        ghost var cycle := BackEdgeCloses(edges, visited', stack', path, order', n, m);
        return true, visited', order';
      } else {
        VisitedIsFinished(edges, visited', stack', path + [n], order', m);
      }
    }
    forall m | m in Targets(edges, n) ensures m in order' {
      var k :| 0 <= k < |neighbors| && neighbors[k] == m;
    }
    LeaveNode(edges, visited', stack', path, order', n);
    assert stack + {n} - {n} == stack;
    order' := order' + [n];
    found := false;
  }

  lemma MirrorsAt<N(!new)>(adjacency: map<N, seq<N>>, edges: Edges<N>, n: N)
    requires Mirrors(adjacency, edges)
    ensures Neighbors(adjacency, n) == Targets(edges, n)
  {
  }

  lemma NotOnPath<N(!new)>(edges: Edges<N>, visited: set<N>, stack: set<N>, path: seq<N>, order: seq<N>, n: N)
    requires Searching(edges, visited, stack, path, order) && n !in visited
    ensures n !in path && n !in order && n !in stack
  {
  }

  lemma VisitedIsFinished<N(!new)>(edges: Edges<N>, visited: set<N>, stack: set<N>, path: seq<N>, order: seq<N>, m: N)
    requires Searching(edges, visited, stack, path, order) && m in visited && m !in stack
    ensures m in order
  {
  }

  lemma SmallerSet<N>(x: set<N>, y: set<N>)
    requires x < y
    ensures |x| < |y|
  {
    assert y == x + (y - x);
    assert |y| == |x| + |y - x|;
    assert y - x != {};
  }

  // ----- the whole check -----

  function Position<N(==)>(order: seq<N>, x: N): (k: nat)
    requires x in order
    ensures k < |order| && order[k] == x
  {
    if order[0] == x then 0 else 1 + Position(order[1..], x)
  }

  lemma {:induction false} PositionIsFirst<N>(order: seq<N>, x: N, k: nat)
    requires k < |order| && x in order[..k]
    ensures x in order && Position(order, x) < k
  {
    var j :| 0 <= j < k && order[..k][j] == x;
    assert order[j] == x;
    if order[0] != x {
      assert order[1..][j - 1] == x && order[1..][..k - 1][j - 1] == x;
      PositionIsFirst(order[1..], x, k - 1);
    }
  }

  lemma EdgeLeadsBack<N>(edges: Edges<N>, order: seq<N>, n: N, m: N)
    requires Topological(edges, order) && n in order && m in Targets(edges, n)
    ensures m in order && Position(order, m) < Position(order, n)
  {
    var k := Position(order, n);
    assert m in order[..k];
    PositionIsFirst(order, m, k);
  }

  lemma {:induction false} PathLeadsBack<N>(edges: Edges<N>, order: seq<N>, p: seq<N>, i: nat)
    requires Topological(edges, order) && IsPath(edges, p) && i < |p| && p[0] in order
    ensures p[i] in order && Position(order, p[i]) + i <= Position(order, p[0])
  {
    if i > 0 {
      PathLeadsBack(edges, order, p, i - 1);
      assert p[i - 1 + 1] in Targets(edges, p[i - 1]);
      EdgeLeadsBack(edges, order, p[i - 1], p[i]);
    }
  }

  /** A cycle cannot start at a listed node. */
  lemma NoCycleFrom<N>(edges: Edges<N>, order: seq<N>, p: seq<N>)
    requires Topological(edges, order) && p != [] && p[0] in order
    ensures !IsCycle(edges, p)
  {
    if |p| >= 2 && IsPath(edges, p) {
      PathLeadsBack(edges, order, p, |p| - 1);
    }
  }

  lemma SortedIsAcyclic<N(!new)>(edges: Edges<N>, order: seq<N>)
    requires Topological(edges, order) && forall e | e in edges :: e.0 in order
    ensures !Cyclic(edges)
  {
    forall p ensures !IsCycle(edges, p) {
      if |p| >= 2 && p[1] in Targets(edges, p[0]) {
        TargetsAreEdges(edges, p[0], p[1]);
        assert (p[0], p[1]).0 in order;
        NoCycleFrom(edges, order, p);
      } else {
        assert |p| >= 2 ==> p[0 + 1] !in Targets(edges, p[0]);
      }
    }
  }

  lemma {:induction false} DistinctFits<N>(order: seq<N>, nodes: set<N>)
    requires NoDuplicates(order) && forall n | n in order :: n in nodes
    ensures |order| <= |nodes|
  {
    if order != [] {
      var front, last := order[..|order| - 1], order[|order| - 1];
      forall n | n in front ensures n in nodes - {last} {
        var k :| 0 <= k < |front| && front[k] == n;
        assert order[k] == n && order[|order| - 1] == last;
      }
      assert last in order;
      DistinctFits(front, nodes - {last});
    }
  }

  /** MAIN RESULT: the check says yes exactly if some path leads back to where it began. Otherwise the order in which
    * the nodes were finished lists every node once, behind everything it leads to.
    */
  method HasCycle<N(==, !new)>(nodes: seq<N>, edges: Edges<N>) returns (found: bool, ghost order: seq<N>)
    requires forall e | e in edges :: e.0 in nodes && e.1 in nodes
    ensures found <==> Cyclic(edges)
    ensures !found ==> Topological(edges, order) && NoDuplicates(order) && forall n :: n in order <==> n in nodes
  {
    hide Cyclic, Topological, Mirrors, Targets;
    var adjacency := RebuildAdjacency(edges);
    var visited: set<N> := {};
    ghost var known := set n | n in nodes;
    order := [];
    assert Searching(edges, visited, {}, [], order) by { NothingSearched(edges); }
    for i := 0 to |nodes|
      invariant Searching(edges, visited, {}, [], order) && visited <= known
      invariant forall k | 0 <= k < i :: nodes[k] in order
    {
      hide Searching;
      if nodes[i] !in visited {
        ghost var before := order;
        found, visited, order := Dfs(adjacency, nodes[i], visited, {}, edges, known, [], order);
        if found { return; }
        assert forall k | 0 <= k < i :: nodes[k] in before;
      } else {
        VisitedIsFinished(edges, visited, {}, [], order, nodes[i]);
      }
    }
    forall n | n in nodes ensures n in order {
      var k :| 0 <= k < |nodes| && nodes[k] == n;
    }
    SortedIsAcyclic(edges, order);
    found := false;
  }

  lemma NothingSearched<N(!new)>(edges: Edges<N>)
    ensures Searching(edges, {}, {}, [], [])
  {
  }

  /** The part of `StateGraph` that collects edges. START and END are among its nodes from the beginning. */
  class EdgeList<N(==, !new)> {
    const nodes: seq<N>
    const allowCycles: bool
    var edges: Edges<N>

    /** What every sequence of `add_edge` calls keeps. */
    ghost predicate Valid()
      reads this
    {
      && (forall e | e in edges :: e.0 in nodes && e.1 in nodes)
      && (allowCycles || !Cyclic(edges))
    }

    constructor (nodes: seq<N>, allowCycles: bool)
      ensures Valid() && edges == [] && this.nodes == nodes && this.allowCycles == allowCycles
    {
      this.nodes, this.allowCycles, this.edges := nodes, allowCycles, [];
      new;
      EmptyIsAcyclic<N>();
    }

    /** Raises, leaving the edges as they were, for an unknown end and for an edge that would close a cycle. */
    method AddEdge(source: N, target: N) returns (ok: bool)
      requires Valid()
      modifies this
      ensures Valid()
      ensures ok <==> source in nodes && target in nodes && (allowCycles || !Cyclic(old(edges) + [(source, target)]))
      ensures edges == if ok then old(edges) + [(source, target)] else old(edges)
    {
      hide Cyclic;
      if source !in nodes || target !in nodes { return false; }
      edges := edges + [(source, target)];
      if !allowCycles {
        var cyclic, order := HasCycle(nodes, edges);
        if cyclic {
          edges := edges[..|edges| - 1];
          return false;
        }
      }
      ok := true;
    }
  }

  lemma EmptyIsAcyclic<N(!new)>()
    ensures !Cyclic<N>([])
  {
    var none: Edges<N> := [];
    forall p ensures !IsCycle(none, p) {
      assert |p| >= 2 ==> p[0 + 1] !in Targets(none, p[0]);
    }
  }
}
