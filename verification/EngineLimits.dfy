/** The per-call iteration cap in general, and three small graphs that witness what interrupting costs. */
module EngineLimits {
  import opened Prelude
  import opened Engine
  import opened ParallelQuestions
  import opened PauseResume

  // ----- the cap, for every graph -----

  /** How many iterations the direct run takes. */
  function Iterations<S, N(==), U, A>(
      g: Graph<S, N, U, A>, s: S, frontier: seq<N>, a: nat -> A, i: nat, left: nat): nat
    decreases left
  {
    if frontier == [] || left == 0 then 0
    else
      var st := DirectSweep(g, s, s, frontier, a, i);
      1 + if Over(g, frontier, st) then 0 else Iterations(g, st.state, Dedupe(st.next), a, st.used, left - 1)
  }

  lemma {:induction false} ExhaustedIff<S, N(!new), U, A>(
      g: Graph<S, N, U, A>, s: S, frontier: seq<N>, a: nat -> A, i: nat, left: nat, cap: nat, log: seq<N>)
    requires Direct(g, s, frontier, a, i, left, log).why != Exhausted
    ensures Direct(g, s, frontier, a, i, cap, log).why == Exhausted
            <==> cap < Iterations(g, s, frontier, a, i, left)
    decreases left
  {
    if frontier != [] && left > 0 && cap > 0 {
      hide DirectSweep, Attempted, Dedupe;
      var st := DirectSweep(g, s, s, frontier, a, i);
      if !Over(g, frontier, st) {
        ExhaustedIff(g, st.state, Dedupe(st.next), a, st.used, left - 1, cap - 1, log + Attempted(g, frontier));
      }
    }
  }

  /** MAIN RESULT: the cap cuts off the uninterrupted run but not the driver if and only if the run takes more than
    * `cap` iterations in all while no single call does, and there is a resume for every question.
    */
  lemma CutOffButDrivenIff<S(!new), N(!new), U, A(!new)>(
      g: Graph<S, N, U, A>, s: S, a: nat -> A, left: nat, resumes: nat)
    requires AsksOnce(g) && Harmless(g, s, g.start, a, 0, left)
    requires Direct(g, s, g.start, a, 0, left, []).why != Exhausted
    ensures
      var t := Direct(g, s, g.start, a, 0, left, []);
      && Direct(g, s, g.start, a, 0, g.cap, []).why == Exhausted
      && SameFinish(t, Drive(g, Call(g, s, None, []), a, 0, resumes))
      <==> && LongestCall(g, s, g.start, a, 0, left, 0) <= g.cap < Iterations(g, s, g.start, a, 0, left)
           && t.used <= resumes
  {
    hide Direct, Drive, Call, Iterations, LongestCall, Harmless;
    ExhaustedIff(g, s, g.start, a, 0, left, g.cap, []);
    DriverAgreesIff(g, s, a, left, resumes);
  }

  // ----- three witnesses -----

  datatype Place = A | B | C | END

  type Web = Graph<set<Place>, Place, Place, string>

  /** Every node just records that it ran; B asks one question first. */
  function Body(n: Place, s: set<Place>, answers: seq<string>): Attempt<Place, Place> {
    if n == B && answers == [] then Ask else Done(n, None)
  }

  function Mark(s: set<Place>, n: Place, u: Place): set<Place> { s + {u} }

  /** A, then B, then C, then END, two iterations to a call. */
  function Chain(): Web {
    Graph([A], END, Body, Mark, (n: Place, s) => match n case A => [B] case B => [C] case _ => [END], 2)
  }

  /** `max_iterations` is counted per call, so a driver can finish what a direct run is cut off from. */
  lemma CapIsPerCall(a: nat -> string)
    ensures var g := Chain();
            && Direct(g, {}, g.start, a, 0, g.cap, []) == Trace({A, B}, Exhausted, 1, [A, B])
            && Drive(g, Call(g, {}, None, []), a, 0, 1) == Driven(Halted({A, B, C}, AtEnd, [A, B, C]), 1)
  {
    assert {} + {A} == {A} && {A} + {B} == {A, B};
    assert [] + [A] == [A] && [A] + [B] == [A, B];
    DirectStep(Chain(), {}, A, a, 0, 2, [], {A}, B);
    DirectStep(Chain(), {A}, B, a, 0, 1, [A], {A, B}, C);
    ChainCalls(a);
    assert Completed(Paused({A}, B, [A, B])) == [A];
    hide Call;
  }

  lemma ChainCalls(a: nat -> string)
    ensures Call(Chain(), {}, None, []) == Paused({A}, B, [A, B])
    ensures Call(Chain(), {A}, Some((B, a(0))), [A]) == Halted({A, B, C}, AtEnd, [A, B, C])
  {
    hide Run;
    assert [] + [A] == [A] && [A] + [B] == [A, B] && [A, B] + [C] == [A, B, C];
    assert {} + {A} == {A} && {A} + {B} == {A, B} && {A, B} + {C} == {A, B, C};
    RunStep(Chain(), {}, A, None, 2, [], {A}, B);
    AskStep(Chain(), {A}, B, 1, [A]);
    RunStep(Chain(), {A}, B, Some((B, a(0))), 2, [A], {A, B}, C);
    RunStep(Chain(), {A, B}, C, None, 1, [A, B], {A, B, C}, END);
  }

  /** A and B side by side; A leads on to C, and so does B if it shares that successor. */
  function Pair(shares: bool): Web {
    Graph([A, B], END, Body, Mark,
          (n: Place, s) => match n case A => [C] case B => if shares then [C] else [] case _ => [END], 100)
  }

  lemma PairAsks(shares: bool)
    ensures
      var g := Pair(shares);
      && Quiet(g, {}, [A]) && Asks(g, {}, B) && !Quiet(g, {}, [A, B]) && AsksOnce(g)
      && Attempted(g, []) == [] && Attempted(g, [A]) == [A] && Attempted(g, [B]) == [B]
      && Attempted(g, [A, B]) == [A, B]
  {
    assert [A] + [B] + [] == [A, B] && [A][1..] == [];
    FirstAskerIs(Pair(shares), {}, [A], B, []);
  }

  lemma PairResumes(shares: bool, a: nat -> string)
    ensures
      var g := Pair(shares);
      && DirectSweep(g, {}, {}, [A], a, 0) == Step({A}, [C], 0)
      && MergedStep(g, {}, {A}, B, a, 0) == Resumed(g, {A}, B, a, 0) == Step({A, B}, if shares then [C] else [], 1)
  {
    assert {} + {A} == {A} && {A} + {B} == {A, B};
    DirectSweepOne(Pair(shares), {}, A, a, 0);
    hide DirectSweep;
  }

  lemma PairNext()
    ensures Dedupe([C]) == [C] && Dedupe([C, C]) == [C] && [C] + [C] == [C, C] && [C] + [] == [C]
  {
    DedupeOfDistinct([C]);
    assert [C, C][..1] == [C];
  }

  lemma PairSweep(shares: bool, a: nat -> string)
    ensures DirectSweep(Pair(shares), {}, {}, [A, B], a, 0) == Step({A, B}, if shares then [C, C] else [C], 1)
  {
    hide DirectSweep, Resumed, MergedStep, Quiet, Asks, Dedupe;
    PairAsks(shares);
    PairResumes(shares, a);
    PairNext();
    assert [A] + [B] + [] == [A, B];
    SweepOfAsker(Pair(shares), {}, [A], B, [], a, 0);
  }

  lemma PairDirect(shares: bool, a: nat -> string)
    ensures Direct(Pair(shares), {}, [A, B], a, 0, 100, []) == Trace({A, B, C}, AtEnd, 1, [A, B, C])
  {
    hide DirectSweep, Dedupe, Attempted, Direct;
    PairAsks(shares);
    PairSweep(shares, a);
    PairNext();
    DirectUnfolds(Pair(shares), {}, [A, B], a, 0, 100, []);
    assert [] + [A, B] == [A, B] && [A, B] + [C] == [A, B, C] && {A, B} + {C} == {A, B, C};
    DirectStep(Pair(shares), {A, B}, C, a, 1, 99, [A, B], {A, B, C}, END);
  }

  lemma PairCalls(shares: bool, a: nat -> string)
    ensures
      var g := Pair(shares);
      && Call(g, {}, None, []) == Paused({A}, B, [A, B])
      && Call(g, {A}, Some((B, a(0))), [A])
         == if shares then Halted({A, B, C}, AtEnd, [A, B, C]) else Halted({A, B}, Drained, [A, B])
  {
    hide DirectSweep, Run, Resumed, MergedStep, Quiet, Asks, AsksOnce, Attempted, Before, Dedupe;
    var g := Pair(shares);
    PairAsks(shares);
    PairResumes(shares, a);
    assert [A] + [B] + [] == [A, B] && [] + [A] == [A] && [A] + [B] == [A, B] && [A, B] + [C] == [A, B, C];
    InterruptedFrontier(g, {}, [A], B, [], a, 0, 100, []);
    assert {A, B} + {C} == {A, B, C};
    PairNext();
    if shares {
      RunStep(g, {A, B}, C, None, 99, [A, B], {A, B, C}, END);
    } else {
      NothingToRun(g, {A, B}, 99, [A, B]);
    }
  }

  lemma NothingToRun(g: Web, s: set<Place>, left: nat, order: seq<Place>)
    ensures Run(g, s, Dedupe([]), None, left, order) == Halted(s, Drained, order)
  {
  }

  /** The driver ends like the uninterrupted run if B shares its peer's successor; otherwise C never runs. */
  lemma PairDriven(shares: bool, a: nat -> string)
    ensures
      var g := Pair(shares);
      Drive(g, Call(g, {}, None, []), a, 0, 1)
      == Driven(if shares then Halted({A, B, C}, AtEnd, [A, B, C]) else Halted({A, B}, Drained, [A, B]), 1)
  {
    PairCalls(shares, a);
    assert Before([A, B], B) == [A] by { assert [A, B][..1] == [A]; }
    hide Call, Before;
  }

  lemma PairNotSolo(shares: bool, a: nat -> string)
    ensures !Solo(Pair(shares), {}, [A, B], a, 0, 100)
  {
    hide DirectSweep, Quiet;
    PairAsks(shares);
  }

  /** The frontier peer of an interrupted node keeps its update but loses its successors: C never runs. */
  lemma ParallelPeersAreLost(a: nat -> string)
    ensures var g := Pair(false);
            && Direct(g, {}, g.start, a, 0, g.cap, []) == Trace({A, B, C}, AtEnd, 1, [A, B, C])
            && Drive(g, Call(g, {}, None, []), a, 0, 1) == Driven(Halted({A, B}, Drained, [A, B]), 1)
            && !Solo(g, {}, g.start, a, 0, g.cap)
  {
    PairDirect(false, a);
    PairDriven(false, a);
    PairNotSolo(false, a);
    hide Call, Direct, Drive, Solo;
  }

  /** A question need not be asked alone: here B's peer has no successor of its own to lose. */
  lemma SharedSuccessorIsHarmless(a: nat -> string)
    ensures var g := Pair(true);
            && !Solo(g, {}, g.start, a, 0, 100) && Harmless(g, {}, g.start, a, 0, 100)
            && SameFinish(Direct(g, {}, g.start, a, 0, g.cap, []), Drive(g, Call(g, {}, None, []), a, 0, 1))
  {
    PairDirect(true, a);
    PairDriven(true, a);
    PairNotSolo(true, a);
    PairHarmless(a);
    hide Call, Direct, Drive, Solo, Harmless;
  }

  lemma PairAlike(a: nat -> string)
    ensures !Quiet(Pair(true), {}, [A, B]) && Alike(Pair(true), {}, [A, B], a, 0)
  {
    hide Alike, Resumed, MergedStep, Dedupe, DirectSweep, Quiet, Asks;
    PairAsks(true);
    PairResumes(true, a);
    PairNext();
    assert [A] + [B] + [] == [A, B] && [A] + [] == [A];
    AlikeIff(Pair(true), {}, [A], B, [], a, 0);
  }

  lemma PairHarmless(a: nat -> string)
    ensures Harmless(Pair(true), {}, [A, B], a, 0, 100)
  {
    var g := Pair(true);
    PairAlike(a);
    PairSweep(true, a);
    PairNext();
    DirectSweepOne(g, {A, B}, C, a, 1);
    assert [C][1..] == [] && Quiet(g, {A, B}, [C]);
    hide DirectSweep, Alike, Dedupe, Quiet;
    assert Harmless(g, {A, B}, [C], a, 1, 99);
  }
}
