/** What a run gains from edges that never lead back: it always ends by itself. */
module Acyclicity {
  import opened CycleCheck
  import opened Prelude
  import opened Engine
  import opened PauseResume

  /** Some rank below `top` rises along every edge and every goto that does not lead to END. */
  ghost predicate Rises<S(!new), N(!new), U(!new), A(!new)>(g: Graph<S, N, U, A>, rank: N -> nat, top: nat) {
    && (forall n :: n != g.end ==> rank(n) < top)
    && (forall n, s, m :: n != g.end && m in g.next(n, s) && m != g.end ==> rank(n) < rank(m))
    && (forall n, s, answers, m {:trigger g.node(n, s, answers), rank(m)} ::
          n != g.end && g.node(n, s, answers).Done? && g.node(n, s, answers).goto.Some?
          && m in g.node(n, s, answers).goto.value && m != g.end
          ==> rank(n) < rank(m))
  }

  ghost predicate Above<N>(ns: seq<N>, end: N, rank: N -> nat, floor: nat) {
    forall n | n in ns :: n == end || rank(n) >= floor
  }

  lemma {:induction false} SweepRises<S(!new), N(!new), U(!new), A(!new)>(
      g: Graph<S, N, U, A>, rank: N -> nat, top: nat, floor: nat, s0: S, s: S, ns: seq<N>, a: nat -> A, i: nat)
    requires Rises(g, rank, top) && Above(ns, g.end, rank, floor)
    ensures Above(DirectSweep(g, s0, s, ns, a, i).next, g.end, rank, floor + 1)
  {
    if ns != [] {
      var n, used := ns[0], UsedBy(g, s0, ns[0], i);
      assert n in ns && Above(ns[1..], g.end, rank, floor);
      if n == g.end {
        SweepRises(g, rank, top, floor, s0, s, ns[1..], a, i);
      } else {
        var attempt := Answered(g, s0, n, a, i);
        match attempt
        case Done(u, goto) =>
          var s' := g.commit(s, n, u);
          SweepRises(g, rank, top, floor, s0, s', ns[1..], a, used);
          forall m | m in Successors(g, n, s', goto) && m != g.end ensures rank(m) >= floor + 1 {
            assert attempt == g.node(n, s0, if Asks(g, s0, n) then [a(i)] else []);
          }
        case _ => SweepRises(g, rank, top, floor, s0, s, ns[1..], a, used);
      }
    }
  }

  lemma FloorIsBelowTop<S(!new), N(!new), U(!new), A(!new)>(
      g: Graph<S, N, U, A>, rank: N -> nat, top: nat, floor: nat, frontier: seq<N>)
    requires Rises(g, rank, top) && Above(frontier, g.end, rank, floor) && frontier != [] && g.end !in frontier
    ensures floor < top
  {
    var n := frontier[0];
    assert n in frontier && n != g.end;
    assert floor <= rank(n) < top;
  }

  lemma {:induction false} EndsAbove<S(!new), N(!new), U(!new), A(!new)>(
      g: Graph<S, N, U, A>, rank: N -> nat, top: nat, floor: nat,
      s: S, frontier: seq<N>, a: nat -> A, i: nat, left: nat, log: seq<N>)
    requires Rises(g, rank, top) && Above(frontier, g.end, rank, floor)
    requires top <= left + floor && (g.end in frontier ==> 0 < left)
    ensures Direct(g, s, frontier, a, i, left, log).why != Exhausted
    decreases left
  {
    if frontier != [] {
      hide DirectSweep, Dedupe, Rises;
      if g.end !in frontier { FloorIsBelowTop(g, rank, top, floor, frontier); }
      var st := DirectSweep(g, s, s, frontier, a, i);
      SweepRises(g, rank, top, floor, s, s, frontier, a, i);
      if !Over(g, frontier, st) {
        DedupeKeepsElements(st.next);
        EndsAbove(g, rank, top, floor + 1, st.state, Dedupe(st.next), a, st.used, left - 1,
                  log + Attempted(g, frontier));
      }
    }
  }

  /** MAIN RESULT: with as many iterations as there are ranks, no run from any frontier, in any state and under any
    * answers, is cut off.
    */
  lemma RisingRunEnds<S(!new), N(!new), U(!new), A(!new)>(
      g: Graph<S, N, U, A>, rank: N -> nat, top: nat, s: S, frontier: seq<N>, a: nat -> A, i: nat,
      left: nat, log: seq<N>)
    requires Rises(g, rank, top) && top <= left && (g.end in frontier ==> 0 < left)
    ensures Direct(g, s, frontier, a, i, left, log).why != Exhausted
  {
    EndsAbove(g, rank, top, 0, s, frontier, a, i, left, log);
  }

  /** So the cap plays no part, and the driver agrees with the uninterrupted run if and only if its resumes suffice. */
  lemma RisingAgreesIff<S(!new), N(!new), U(!new), A(!new)>(
      g: Graph<S, N, U, A>, rank: N -> nat, top: nat, s: S, a: nat -> A, resumes: nat)
    requires Rises(g, rank, top) && top <= g.cap && (g.end in g.start ==> 0 < g.cap)
    requires AsksOnce(g) && Sequential(g)
    ensures
      var t := Direct(g, s, g.start, a, 0, g.cap, []);
      SameFinish(t, Drive(g, Call(g, s, None, []), a, 0, resumes)) <==> t.used <= resumes
  {
    hide Direct, Drive, Call, LongestCall, Rises;
    RisingRunEnds(g, rank, top, s, g.start, a, 0, g.cap, []);
    SequentialAgreesIff(g, s, a, g.cap, resumes);
    var m := LongestCall(g, s, g.start, a, 0, g.cap, 0);
  }

  // ----- from the cycle check to the rank -----

  /** The graph moves along the given edges only: no conditional edge and no goto leads elsewhere. */
  ghost predicate Follows<S(!new), N(!new), U(!new), A(!new)>(g: Graph<S, N, U, A>, edges: Edges<N>) {
    && (forall n, s, m :: m in g.next(n, s) ==> m in Targets(edges, n))
    && (forall n, s, answers, m {:trigger g.node(n, s, answers), m in Targets(edges, n)} ::
          g.node(n, s, answers).Done? && g.node(n, s, answers).goto.Some? && m in g.node(n, s, answers).goto.value
          ==> m in Targets(edges, n))
  }

  /** Nodes listed later lead to nodes listed earlier, so the rank counts from the end of the list. */
  function RankIn<N(==)>(order: seq<N>): N -> nat {
    n => if n in order then |order| - 1 - Position(order, n) else 0
  }

  lemma FollowingRises<S(!new), N(!new), U(!new), A(!new)>(g: Graph<S, N, U, A>, edges: Edges<N>, order: seq<N>)
    requires Follows(g, edges) && Topological(edges, order) && order != []
    requires forall e | e in edges :: e.0 in order
    ensures Rises(g, RankIn(order), |order|)
  {
    var rank := RankIn(order);
    forall n, m | m in Targets(edges, n) ensures rank(n) < rank(m) {
      TargetsAreEdges(edges, n, m);
      assert (n, m).0 in order;
      EdgeLeadsBack(edges, order, n, m);
    }
  }

  /** MAIN RESULT: a graph whose plain edges passed the cycle check and that moves along them alone always ends by
    * itself within as many iterations as it has nodes.
    */
  lemma AcyclicGraphEnds<S(!new), N(!new), U(!new), A(!new)>(
      g: Graph<S, N, U, A>, edges: Edges<N>, order: seq<N>, nodes: set<N>,
      s: S, frontier: seq<N>, a: nat -> A, i: nat, left: nat, log: seq<N>)
    requires Follows(g, edges) && Topological(edges, order) && NoDuplicates(order) && order != []
    requires (forall e | e in edges :: e.0 in order) && (forall n | n in order :: n in nodes)
    requires |nodes| <= left
    ensures Direct(g, s, frontier, a, i, left, log).why != Exhausted
  {
    hide Direct, Rises, Follows, Topological;
    FollowingRises(g, edges, order);
    DistinctFits(order, nodes);
    RisingRunEnds(g, RankIn(order), |order|, s, frontier, a, i, left, log);
  }
}
