/** A question inside a parallel frontier: what the runtime keeps, what it drops, and when that makes no difference. */
module ParallelQuestions {
  import opened Prelude
  import opened Engine
  import opened PauseResume

  lemma {:induction false} WithoutAbsent<N>(ns: seq<N>, x: N)
    requires x !in ns
    ensures Without(ns, x) == ns
  {
    if ns != [] { WithoutAbsent(ns[1..], x); }
  }

  lemma {:induction false} WithoutAppends<N>(x: seq<N>, y: seq<N>, n: N)
    ensures Without(x + y, n) == Without(x, n) + Without(y, n)
  {
    if x == [] {
      assert x + y == y;
    } else {
      assert (x + y)[1..] == x[1..] + y;
      WithoutAppends(x[1..], y, n);
    }
  }

  lemma AttemptedIsWithout<S, N, U, A>(g: Graph<S, N, U, A>, ns: seq<N>)
    ensures Attempted(g, ns) == Without(ns, g.end)
  {
    if g.end !in ns { WithoutAbsent(ns, g.end); }
  }

  lemma AttemptedAppends<S, N, U, A>(g: Graph<S, N, U, A>, front: seq<N>, n: N, back: seq<N>)
    requires n != g.end
    ensures Attempted(g, front + [n] + back) == Attempted(g, front) + [n] + Attempted(g, back)
  {
    hide Attempted;
    AttemptedIsWithout(g, front + [n] + back);
    AttemptedIsWithout(g, front);
    AttemptedIsWithout(g, back);
    WithoutAppends(front + [n], back, g.end);
    WithoutAppends(front, [n], g.end);
    assert [n][1..] == [];
  }

  lemma WithoutFirst<N>(ns: seq<N>, x: N)
    requires ns != []
    ensures Without(ns, x) == [] <==> ns[0] == x && Without(ns[1..], x) == []
  {
  }

  lemma {:induction false} NothingWithout<N>(ns: seq<N>, x: N)
    ensures Without(ns, x) == [] <==> forall n | n in ns :: n == x
  {
    if ns != [] {
      NothingWithout(ns[1..], x);
      WithoutFirst(ns, x);
      assert ns[0] in ns;
      forall n | n in ns ensures n == ns[0] || n in ns[1..] {}
      assert forall n | n in ns[1..] :: n in ns;
    }
  }

  lemma NothingAttempted<S, N, U, A>(g: Graph<S, N, U, A>, ns: seq<N>)
    ensures Attempted(g, ns) == [] <==> forall n | n in ns :: n == g.end
  {
    AttemptedIsWithout(g, ns);
    NothingWithout(ns, g.end);
  }

  lemma {:induction false} SweepAppends<S, N, U, A>(
      g: Graph<S, N, U, A>, s0: S, s: S, front: seq<N>, back: seq<N>, a: nat -> A, i: nat)
    ensures
      var x := DirectSweep(g, s0, s, front, a, i);
      var y := DirectSweep(g, s0, x.state, back, a, x.used);
      DirectSweep(g, s0, s, front + back, a, i) == Step(y.state, x.next + y.next, y.used)
  {
    if front == [] {
      assert front + back == back;
    } else {
      assert (front + back)[1..] == front[1..] + back;
      if front[0] == g.end {
        SweepAppends(g, s0, s, front[1..], back, a, i);
      } else {
        var used := UsedBy(g, s0, front[0], i);
        match Answered(g, s0, front[0], a, i)
        case Done(u, goto) => SweepAppends(g, s0, g.commit(s, front[0], u), front[1..], back, a, used);
        case _ => SweepAppends(g, s0, s, front[1..], back, a, used);
      }
    }
  }

  lemma {:induction false} EndsSweepNothing<S, N, U, A>(
      g: Graph<S, N, U, A>, s0: S, s: S, ns: seq<N>, a: nat -> A, i: nat)
    requires forall n | n in ns :: n == g.end
    ensures DirectSweep(g, s0, s, ns, a, i) == Step(s, [], i)
  {
    if ns != [] {
      assert ns[0] in ns && forall n | n in ns[1..] :: n in ns;
      EndsSweepNothing(g, s0, s, ns[1..], a, i);
    }
  }

  /** MAIN RESULT, for every frontier in which `n` is the first to ask. The pause keeps the updates of the peers before
    * it and nothing of those behind it; the resumed call runs `n` alone against that state and goes on with n's
    * successors only.
    */
  lemma InterruptedFrontier<S(!new), N(!new), U, A(!new)>(
      g: Graph<S, N, U, A>, s: S, front: seq<N>, n: N, back: seq<N>, a: nat -> A, i: nat, budget: nat, order: seq<N>)
    requires AsksOnce(g) && 0 < budget <= g.cap && Quiet(g, s, front) && Asks(g, s, n) && n !in back
    ensures
      var held := DirectSweep(g, s, s, front, a, i).state;
      var r, done := Run(g, s, front + [n] + back, None, budget, order), order + Attempted(g, front);
      && r == Paused(held, n, done + [n] + Attempted(g, back))
      && Completed(r) == done
      && Call(g, held, Some((n, a(i))), done)
         == Onward(g, [n], Resumed(g, held, n, a, i), g.cap - 1, done + [n])
  {
    hide Run, Call, Onward, Resumed, Attempted;
    var held := DirectSweep(g, s, s, front, a, i).state;
    InterruptedRun(g, s, front, n, back, a, i, budget, order);
    AttemptedAppends(g, front, n, back);
    assert order + (Attempted(g, front) + [n] + Attempted(g, back))
        == order + Attempted(g, front) + [n] + Attempted(g, back);
    NotAttempted(g, back, n);
    BeforeMiddle(order + Attempted(g, front), n, Attempted(g, back));
    assert !g.node(n, held, [a(i)]).Ask?;
    ResumedCall(g, held, n, a, i, order + Attempted(g, front));
  }

  lemma InterruptedRun<S(!new), N(!new), U, A(!new)>(
      g: Graph<S, N, U, A>, s: S, front: seq<N>, n: N, back: seq<N>, a: nat -> A, i: nat, budget: nat, order: seq<N>)
    requires 0 < budget && Quiet(g, s, front) && Asks(g, s, n)
    ensures
      var held := DirectSweep(g, s, s, front, a, i).state;
      Run(g, s, front + [n] + back, None, budget, order)
      == Paused(held, n, order + Attempted(g, front + [n] + back))
  {
    HeldSweep(g, s, s, front, n, back, a, i);
    hide Sweep;
  }

  lemma {:induction false} WithoutOnly<N>(ns: seq<N>, x: N, n: N)
    requires n !in ns
    ensures n !in Without(ns, x)
  {
    if ns != [] {
      assert n !in ns[1..];
      WithoutOnly(ns[1..], x, n);
    }
  }

  lemma NotAttempted<S, N, U, A>(g: Graph<S, N, U, A>, ns: seq<N>, n: N)
    requires n !in ns
    ensures n !in Attempted(g, ns)
  {
    AttemptedIsWithout(g, ns);
    WithoutOnly(ns, g.end, n);
  }

  /** Once the question is answered, the peers behind it might as well not have been there: not even an END among
    * them counts.
    */
  lemma PeersBehindDoNotCount<S(!new), N(!new), U, A(!new)>(
      g: Graph<S, N, U, A>, s: S, front: seq<N>, n: N, back: seq<N>, a: nat -> A, i: nat,
      budget: nat, order: seq<N>, resumes: nat)
    requires AsksOnce(g) && 0 < budget <= g.cap && Quiet(g, s, front) && Asks(g, s, n) && n !in back && 0 < resumes
    ensures Drive(g, Run(g, s, front + [n] + back, None, budget, order), a, i, resumes)
         == Drive(g, Run(g, s, front + [n], None, budget, order), a, i, resumes)
  {
    hide Run, Call, Onward, Resumed, Attempted, DirectSweep, Before;
    InterruptedFrontier(g, s, front, n, back, a, i, budget, order);
    InterruptedFrontier(g, s, front, n, [], a, i, budget, order);
    assert front + [n] + [] == front + [n];
  }

  function ResumedOf<S, N(==), U, A>(g: Graph<S, N, U, A>, s: S, front: seq<N>, n: N, a: nat -> A, i: nat): Step<S, N> {
    Resumed(g, DirectSweep(g, s, s, front, a, i).state, n, a, i)
  }

  /** `Alike` with the frontier's parts spelled out. */
  lemma AlikeIsLanding<S(!new), N(!new), U(!new), A(!new)>(
      g: Graph<S, N, U, A>, s: S, front: seq<N>, n: N, back: seq<N>, a: nat -> A, i: nat)
    requires Quiet(g, s, front) && Asks(g, s, n) && n !in back && !Quiet(g, s, front + [n] + back)
    ensures
      var frontier, log := front + [n] + back, Attempted(g, front) + [n];
      Alike(g, s, frontier, a, i)
      <==> Landing(g, frontier, DirectSweep(g, s, s, frontier, a, i), log + Attempted(g, back))
           == Landing(g, [n], ResumedOf(g, s, front, n, a, i), log)
  {
    hide DirectSweep, Attempted, Before, Quiet, Resumed, Landing, FirstAsker, Asks;
    var frontier := front + [n] + back;
    FirstAskerIs(g, s, front, n, back);
    assert frontier[..|front|] == front && frontier[|front|] == n;
    assert n != g.end by { AskerIsNotEnd(g, s, n); }
    AttemptedAppends(g, front, n, back);
    NotAttempted(g, back, n);
    BeforeMiddle(Attempted(g, front), n, Attempted(g, back));
    assert [] + Attempted(g, frontier) == Attempted(g, frontier);
  }

  lemma AskerIsNotEnd<S, N, U, A>(g: Graph<S, N, U, A>, s: S, n: N)
    requires Asks(g, s, n)
    ensures n != g.end
  {
  }

  /** n's attempt as the direct run makes it: against the frontier's first state, merged into the peers' state. */
  function MergedStep<S, N, U, A>(g: Graph<S, N, U, A>, s: S, held: S, n: N, a: nat -> A, i: nat): Step<S, N> {
    match g.node(n, s, [a(i)])
    case Done(u, goto) => Step(g.commit(held, n, u), Successors(g, n, g.commit(held, n, u), goto), i + 1)
    case _ => Step(held, [], i + 1)
  }

  /** With nobody real behind n, the direct run merges that attempt and has the successors of all. */
  lemma SweepOfAsker<S(!new), N(!new), U(!new), A(!new)>(
      g: Graph<S, N, U, A>, s: S, front: seq<N>, n: N, back: seq<N>, a: nat -> A, i: nat)
    requires Quiet(g, s, front) && Asks(g, s, n) && forall m | m in back :: m == g.end
    ensures
      var held := DirectSweep(g, s, s, front, a, i);
      var own := MergedStep(g, s, held.state, n, a, i);
      DirectSweep(g, s, s, front + [n] + back, a, i) == Step(own.state, held.next + own.next, own.used)
  {
    var held := DirectSweep(g, s, s, front, a, i);
    QuietSweep(g, s, s, front, a, i);
    SweepAppends(g, s, s, front, [n] + back, a, i);
    assert front + ([n] + back) == front + [n] + back;
    assert ([n] + back)[1..] == back;
    var attempt := g.node(n, s, [a(i)]);
    if attempt.Done? {
      EndsSweepNothing(g, s, g.commit(held.state, n, attempt.update), back, a, i + 1);
    } else {
      EndsSweepNothing(g, s, held.state, back, a, i + 1);
    }
  }

  /** Both runs have reached END, or neither has and both go on with the same frontier. */
  ghost predicate SameContinuation<N>(end: N, met: seq<N>, next: seq<N>, resumed: seq<N>) {
    if end in resumed then end in met + next else end !in met + next && Dedupe(next) == Dedupe(resumed)
  }

  /** MAIN RESULT: when a question in a parallel frontier makes no difference, for every frontier. That is if and only
    * if nobody real stands behind n, n's attempt merged from the first state leaves the state that its attempt against
    * the peers' state leaves, and all successors together continue as n's own do.
    */
  lemma AlikeIff<S(!new), N(!new), U(!new), A(!new)>(
      g: Graph<S, N, U, A>, s: S, front: seq<N>, n: N, back: seq<N>, a: nat -> A, i: nat)
    requires Quiet(g, s, front) && Asks(g, s, n) && n !in back && !Quiet(g, s, front + [n] + back)
    ensures
      var held := DirectSweep(g, s, s, front, a, i);
      var own, rs := MergedStep(g, s, held.state, n, a, i), Resumed(g, held.state, n, a, i);
      Alike(g, s, front + [n] + back, a, i)
      <==> && (forall m | m in back :: m == g.end)
           && own.state == rs.state
           && SameContinuation(g.end, front + back, held.next + own.next, rs.next)
  {
    AlikeIsLanding(g, s, front, n, back, a, i);
    NothingAttempted(g, back);
    if forall m | m in back :: m == g.end {
      SweepOfAsker(g, s, front, n, back, a, i);
      hide Alike, DirectSweep, Attempted, Quiet;
      assert Attempted(g, front) + [n] + [] == Attempted(g, front) + [n];
      assert g.end in front + [n] + back <==> g.end in front || g.end in back;
    } else {
      hide Alike, DirectSweep, Resumed, Quiet, Over;
    }
  }

  /** In particular, for a node that answers alike in both states. */
  lemma SteadyAskerIsAlikeIff<S(!new), N(!new), U(!new), A(!new)>(
      g: Graph<S, N, U, A>, s: S, front: seq<N>, n: N, back: seq<N>, a: nat -> A, i: nat)
    requires Quiet(g, s, front) && Asks(g, s, n) && n !in back && !Quiet(g, s, front + [n] + back)
    requires g.node(n, DirectSweep(g, s, s, front, a, i).state, [a(i)]) == g.node(n, s, [a(i)])
    ensures
      var held := DirectSweep(g, s, s, front, a, i);
      var own := Resumed(g, held.state, n, a, i).next;
      Alike(g, s, front + [n] + back, a, i)
      <==> && (forall m | m in back :: m == g.end)
           && (g.end in own
               || (g.end !in front + back + held.next && Dedupe(held.next + own) == Dedupe(own)))
  {
    AlikeIff(g, s, front, n, back, a, i);
    hide Alike, DirectSweep, Quiet, Dedupe;
  }
}
