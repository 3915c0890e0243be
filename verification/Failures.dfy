/** Nodes that raise: what a workflow does when any of its nodes may fail at any state and upon any answer. */
module Failures {
  import opened Prelude
  import opened Engine
  import opened PauseResume

  /** The same graph, except that the oracle decides at which states, and given which answers, a node raises. */
  function Failing<S, N, U, A>(g: Graph<S, N, U, A>, fails: (N, S, seq<A>) -> bool): Graph<S, N, U, A> {
    g.(node := (n, s, answers) => if fails(n, s, answers) then Crash else g.node(n, s, answers))
  }

  /** Failing nodes do not spoil what the driver theorems need. */
  lemma FailingStaysSequential<S(!new), N(!new), U(!new), A(!new)>(g: Graph<S, N, U, A>, fails: (N, S, seq<A>) -> bool)
    requires Sequential(g) && AsksOnce(g)
    ensures Sequential(Failing(g, fails)) && AsksOnce(Failing(g, fails))
  {
    var f := Failing(g, fails);
    forall n, s, x ensures !f.node(n, s, [x]).Ask? {
      assert !g.node(n, s, [x]).Ask?;
    }
    forall n, s, answers {:trigger f.node(n, s, answers)} |
      f.node(n, s, answers).Done? && f.node(n, s, answers).goto.Some?
      ensures |f.node(n, s, answers).goto.value| <= 1
    {
      assert f.node(n, s, answers) == g.node(n, s, answers);
    }
    forall n, s ensures |f.next(n, s)| <= 1 { assert |g.next(n, s)| <= 1; }
  }

  /** The node raises before it asks anything, or upon the answer to its question. */
  predicate Raises<S, N, U, A>(
      g: Graph<S, N, U, A>, fails: (N, S, seq<A>) -> bool, s: S, n: N, a: nat -> A, i: nat)
  {
    fails(n, s, []) || (g.node(n, s, []).Ask? && fails(n, s, [a(i)]))
  }

  /** An answer is used up by a node that raises upon it. */
  function UsedByRaising<S, N, A>(fails: (N, S, seq<A>) -> bool, s: S, n: N, i: nat): nat {
    if fails(n, s, []) then i else i + 1
  }

  /** The failing run t is the run of g cut off just before `n`, which raises there. */
  ghost predicate CutShort<S, N, U, A>(
      g: Graph<S, N, U, A>, fails: (N, S, seq<A>) -> bool, s: S, frontier: seq<N>, a: nat -> A, i: nat,
      cut: nat, n: N, log: seq<N>, t: Trace<S, N>)
  {
    var p := Direct(g, s, frontier, a, i, cut, log);
    && p.why == Exhausted && Raises(g, fails, p.state, n, a, p.used)
    && t == Trace(p.state, Drained, UsedByRaising(fails, p.state, n, p.used), p.log + [n])
  }

  /** A step of the failing graph is the step of g, unless the node raises. */
  lemma SameOrCrash<S(!new), N(!new), U, A(!new)>(
      g: Graph<S, N, U, A>, fails: (N, S, seq<A>) -> bool, s: S, n: N, a: nat -> A, i: nat)
    ensures n == g.end || !Raises(g, fails, s, n, a, i) ==>
              DirectSweep(Failing(g, fails), s, s, [n], a, i) == DirectSweep(g, s, s, [n], a, i)
    ensures n != g.end && Raises(g, fails, s, n, a, i) ==>
              DirectSweep(Failing(g, fails), s, s, [n], a, i) == Step(s, [], UsedByRaising(fails, s, n, i))
  {
    var f := Failing(g, fails);
    if n == g.end {
      assert [n][1..] == [];
    } else {
      DirectSweepOne(g, s, n, a, i);
      DirectSweepOne(f, s, n, a, i);
    }
  }

  /** MAIN RESULT. In a graph whose nodes have at most one successor, whichever nodes fail, before asking or upon an
    * answer, the run is the ordinary one or stops drained right before the first node that raises, with the state and
    * the nodes completed up to there and, beyond the answers used by then, at most the one it raised upon. So whatever
    * holds of the state at every beginning of a run holds at the end of every failing run.
    */
  lemma {:induction false} FailingRunIsCutShort<S(!new), N(!new), U(!new), A(!new)>(
      g: Graph<S, N, U, A>, fails: (N, S, seq<A>) -> bool, s: S, frontier: seq<N>, a: nat -> A, i: nat,
      left: nat, log: seq<N>)
    returns (failure: Option<(nat, N)>)
    requires Sequential(g) && |frontier| <= 1
    ensures
      var t := Direct(Failing(g, fails), s, frontier, a, i, left, log);
      match failure
      case None => t == Direct(g, s, frontier, a, i, left, log)
      case Some(f) => f.0 < left && CutShort(g, fails, s, frontier, a, i, f.0, f.1, log, t)
    decreases left
  {
    failure := None;
    if frontier != [] && left > 0 {
      hide DirectSweep, Dedupe, Sequential;
      var n := frontier[0];
      assert frontier == [n];
      SameOrCrash(g, fails, s, n, a, i);
      if n != g.end && Raises(g, fails, s, n, a, i) {
        NothingToDedupe<N>();
        failure := Some((0, n));
      } else {
        var st := DirectSweep(g, s, s, [n], a, i);
        OneSuccessor(g, s, n, a, i);
        DedupeKeepsElements(st.next);
        if !Over(g, [n], st) {
          var later := FailingRunIsCutShort(g, fails, st.state, Dedupe(st.next), a, st.used, left - 1,
                                            log + Attempted(g, [n]));
          if later.Some? { failure := Some((later.value.0 + 1, later.value.1)); }
        }
      }
    }
  }

  lemma NothingToDedupe<N>()
    ensures Dedupe<N>([]) == []
  {
  }
}
