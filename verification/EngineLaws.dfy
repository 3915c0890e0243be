/** What one iteration of the runtime does, in terms of the node bodies, the edges and the merges alone. */
module EngineLaws {
  import opened Prelude
  import opened Engine
  import opened ParallelQuestions
  import opened PauseResume

  // ----- one node -----

  /** A node that finishes is followed by all targets of its goto, or of its edges if it has none; END ends the run. */
  lemma RunGoesOn<S(!new), N(!new), U, A(!new)>(
      g: Graph<S, N, U, A>, s: S, n: N, u: U, goto: Option<seq<N>>, left: nat, order: seq<N>)
    requires 0 < left && n != g.end && g.node(n, s, []) == Done(u, goto)
    ensures
      var s' := g.commit(s, n, u);
      var all := if goto.Some? then goto.value else g.next(n, s');
      Run(g, s, [n], None, left, order)
      == if g.end in all then Halted(s', AtEnd, order + [n])
         else Run(g, s', Dedupe(all), None, left - 1, order + [n])
  {
    SweepOne(g, s, n, None);
  }

  /** A resumed node is run against the state it is resumed with, with the answer; then the same holds, with a new
    * budget. A node that raises leaves nothing to do, one that asks again is paused again.
    */
  lemma ResumeGoesOn<S(!new), N(!new), U, A(!new)>(
      g: Graph<S, N, U, A>, s: S, n: N, x: A, history: seq<N>)
    requires 0 < g.cap && n != g.end
    ensures Call(g, s, Some((n, x)), history)
         == match g.node(n, s, [x])
            case Ask => Paused(s, n, history + [n])
            case Crash => Halted(s, Drained, history + [n])
            case Done(u, goto) =>
              var s' := g.commit(s, n, u);
              var all := if goto.Some? then goto.value else g.next(n, s');
              if g.end in all then Halted(s', AtEnd, history + [n])
              else Run(g, s', Dedupe(all), None, g.cap - 1, history + [n])
  {
    SweepOne(g, s, n, Some((n, x)));
    hide Sweep;
    match g.node(n, s, [x])
    case Ask =>
    case Crash => assert Run(g, s, Dedupe([]), None, g.cap - 1, history + [n]) == Halted(s, Drained, history + [n]);
    case Done(u, goto) =>
  }

  // ----- a whole frontier -----

  ghost predicate Finishes<S, N, U, A>(g: Graph<S, N, U, A>, s: S, n: N) {
    n != g.end && g.node(n, s, []).Done?
  }

  /** Every node was given s; the updates of those that finish are merged in order. */
  ghost function StateAfter<S, N, U, A>(g: Graph<S, N, U, A>, s: S, ns: seq<N>): S {
    if ns == [] then s
    else
      var last, before := ns[|ns| - 1], StateAfter(g, s, ns[..|ns| - 1]);
      if Finishes(g, s, last) then g.commit(before, last, g.node(last, s, []).update) else before
  }

  /** The targets of the k-th node: its goto's, or those its edges have in the state with its own update merged. */
  ghost function TargetsOf<S, N, U, A>(g: Graph<S, N, U, A>, s: S, ns: seq<N>, k: nat): seq<N>
    requires k < |ns|
  {
    if !Finishes(g, s, ns[k]) then []
    else if g.node(ns[k], s, []).goto.Some? then g.node(ns[k], s, []).goto.value
    else g.next(ns[k], StateAfter(g, s, ns[..k + 1]))
  }

  /** All of them, in the order of the frontier. */
  ghost function AllTargets<S, N, U, A>(g: Graph<S, N, U, A>, s: S, ns: seq<N>): seq<N> {
    if ns == [] then [] else AllTargets(g, s, ns[..|ns| - 1]) + TargetsOf(g, s, ns, |ns| - 1)
  }

  /** The nodes of a frontier that are not END, in order. */
  ghost function Real<N>(ns: seq<N>, end: N): seq<N> {
    if ns == [] then []
    else Real(ns[..|ns| - 1], end) + if ns[|ns| - 1] == end then [] else [ns[|ns| - 1]]
  }

  lemma {:induction false} AttemptedIsReal<S, N, U, A>(g: Graph<S, N, U, A>, ns: seq<N>)
    ensures Attempted(g, ns) == Real(ns, g.end)
  {
    AttemptedIsWithout(g, ns);
    hide Attempted;
    if ns != [] {
      var front, last := ns[..|ns| - 1], ns[|ns| - 1];
      AttemptedIsReal(g, front);
      AttemptedIsWithout(g, front);
      WithoutAppends(front, [last], g.end);
      assert ns == front + [last] && [last][1..] == [];
    }
  }

  lemma {:induction false} QuietIff<S, N, U, A>(g: Graph<S, N, U, A>, s: S, ns: seq<N>)
    ensures Quiet(g, s, ns) <==> forall n | n in ns :: n == g.end || !g.node(n, s, []).Ask?
  {
    if ns != [] {
      QuietIff(g, s, ns[1..]);
      assert forall n :: n in ns <==> n == ns[0] || n in ns[1..];
    }
  }

  lemma LastOfSweep<S(!new), N(!new), U, A(!new)>(
      g: Graph<S, N, U, A>, s: S, before: S, n: N, a: nat -> A, i: nat)
    requires n == g.end || !g.node(n, s, []).Ask?
    ensures DirectSweep(g, s, before, [n], a, i)
         == if !Finishes(g, s, n) then Step(before, [], i)
            else
              var after := g.commit(before, n, g.node(n, s, []).update);
              Step(after, if g.node(n, s, []).goto.Some? then g.node(n, s, []).goto.value else g.next(n, after), i)
  {
    assert [n][1..] == [];
  }

  /** The sweep of a frontier in which nobody asks, without reference to how it is computed. */
  lemma {:induction false} QuietSweepMerges<S(!new), N(!new), U, A(!new)>(
      g: Graph<S, N, U, A>, s: S, ns: seq<N>, a: nat -> A, i: nat)
    requires forall n | n in ns :: n == g.end || !g.node(n, s, []).Ask?
    ensures DirectSweep(g, s, s, ns, a, i) == Step(StateAfter(g, s, ns), AllTargets(g, s, ns), i)
  {
    if ns != [] {
      var front, last := ns[..|ns| - 1], ns[|ns| - 1];
      assert ns == front + [last];
      QuietSweepMerges(g, s, front, a, i);
      SweepAppends(g, s, s, front, [last], a, i);
      LastOfSweep(g, s, StateAfter(g, s, front), last, a, i);
      assert ns[..|ns| - 1 + 1] == ns;
      hide DirectSweep;
    }
  }

  /** MAIN RESULT: one iteration of a frontier in which nobody asks. The updates of all nodes that finish are merged in
    * order, the run ends if END is among the frontier or the targets, and otherwise goes on with every target once.
    */
  lemma FrontierGoesOn<S(!new), N(!new), U, A(!new)>(
      g: Graph<S, N, U, A>, s: S, ns: seq<N>, left: nat, order: seq<N>, a: nat -> A)
    requires ns != [] && 0 < left && forall n | n in ns :: n == g.end || !g.node(n, s, []).Ask?
    ensures
      var s', all := StateAfter(g, s, ns), AllTargets(g, s, ns);
      Run(g, s, ns, None, left, order)
      == if g.end in ns || g.end in all then Halted(s', AtEnd, order + Real(ns, g.end))
         else Run(g, s', Dedupe(all), None, left - 1, order + Real(ns, g.end))
  {
    hide DirectSweep, Attempted, Run, StateAfter, AllTargets;
    QuietIff(g, s, ns);
    QuietIteration(g, s, ns, a, 0, left, order);
    QuietSweepMerges(g, s, ns, a, 0);
    AttemptedIsReal(g, ns);
  }

  /** The frontier in which n is the first to ask: all before it are merged, nothing of those behind it is. */
  lemma FrontierPauses<S(!new), N(!new), U, A(!new)>(
      g: Graph<S, N, U, A>, s: S, front: seq<N>, n: N, back: seq<N>, left: nat, order: seq<N>, a: nat -> A)
    requires 0 < left && (forall m | m in front :: m == g.end || !g.node(m, s, []).Ask?)
    requires n != g.end && g.node(n, s, []) == Ask
    ensures Run(g, s, front + [n] + back, None, left, order)
         == Paused(StateAfter(g, s, front), n, order + Real(front + [n] + back, g.end))
  {
    hide DirectSweep, Attempted, Run, StateAfter, AllTargets;
    QuietIff(g, s, front);
    InterruptedRun(g, s, front, n, back, a, 0, left, order);
    QuietSweepMerges(g, s, front, a, 0);
    AttemptedIsReal(g, front + [n] + back);
  }

  /** MAIN RESULT: the next frontier holds exactly every target of every node that finished, each of them once, in the
    * order in which they first occur.
    */
  lemma {:induction false} NextFrontierIff<S(!new), N(!new), U, A>(g: Graph<S, N, U, A>, s: S, ns: seq<N>, m: N)
    ensures m in AllTargets(g, s, ns) <==> exists k :: 0 <= k < |ns| && m in TargetsOf(g, s, ns, k)
    ensures m in Dedupe(AllTargets(g, s, ns)) <==> m in AllTargets(g, s, ns)
    ensures
      var all, nx := AllTargets(g, s, ns), Dedupe(AllTargets(g, s, ns));
      && NoDuplicates(nx)
      && forall i, j | 0 <= i < j < |nx| :: OccursBefore(all, nx[i], nx[j])
  {
    var all := AllTargets(g, s, ns);
    DedupeKeepsElements(all);
    TargetsSomewhere(g, s, ns, m);
    hide AllTargets, TargetsOf, Dedupe;
    forall i, j | 0 <= i < j < |Dedupe(all)| ensures OccursBefore(all, Dedupe(all)[i], Dedupe(all)[j]) {
      DedupeKeepsOrder(all, i, j);
    }
  }

  lemma {:induction false} TargetsSomewhere<S(!new), N(!new), U, A>(g: Graph<S, N, U, A>, s: S, ns: seq<N>, m: N)
    ensures m in AllTargets(g, s, ns) <==> exists k :: 0 <= k < |ns| && m in TargetsOf(g, s, ns, k)
  {
    if ns != [] {
      var front, n := ns[..|ns| - 1], |ns| - 1;
      TargetsSomewhere(g, s, front, m);
      forall k | 0 <= k < n ensures TargetsOf(g, s, front, k) == TargetsOf(g, s, ns, k) {
        assert front[..k + 1] == ns[..k + 1];
      }
      hide TargetsOf;
    }
  }
}
