/** Interrupt, answer, resume: the driver loop around `execute`, against one uninterrupted run. */
module PauseResume {
  import opened Prelude
  import opened Engine

  /** Outcome of a driver: the last result and how many answers were used. */
  datatype Driven<+S, +N> = Driven(result: Result<S, N>, used: nat)

  /** What comes before the last occurrence of `n`. */
  function Before<N(==)>(order: seq<N>, n: N): seq<N> {
    if order == [] then []
    else if order[|order| - 1] == n then order[..|order| - 1]
    else Before(order[..|order| - 1], n)
  }

  /** A paused call discards the attempts of the interrupted node and of its peers behind it; what ran before counts. */
  function Completed<S, N(==)>(r: Result<S, N>): seq<N> {
    if r.Paused? then Before(r.order, r.at) else r.order
  }

  /** Resume the interrupted node with the next answer, at most `resumes` times. */
  function Drive<S, N(==), U, A>(g: Graph<S, N, U, A>, r: Result<S, N>, a: nat -> A, i: nat, resumes: nat)
    : Driven<S, N>
    decreases resumes
  {
    if r.Halted? || resumes == 0 then Driven(r, i)
    else Drive(g, Call(g, r.state, Some((r.at, a(i))), Completed(r)), a, i + 1, resumes - 1)
  }

  /** A fixed list of answers, then the same default forever. */
  function Supply<A>(answers: seq<A>, default: A): nat -> A {
    (i: nat) => if i < |answers| then answers[i] else default
  }

  /** The driver loop: stop when the graph is no longer interrupted or the resumes are spent. */
  method Answer<S, N(==), U, A>(g: Graph<S, N, U, A>, s: S, answers: seq<A>, default: A, resumes: nat)
    returns (d: Driven<S, N>)
    ensures d == Drive(g, Call(g, s, None, []), Supply(answers, default), 0, resumes)
  {
    hide Call;
    var a := Supply(answers, default);
    ghost var expected := Drive(g, Call(g, s, None, []), a, 0, resumes);
    var result := Execute(g, s, None, []);
    var used := 0;
    while result.Paused? && used < resumes
      invariant used <= resumes
      invariant Drive(g, result, a, used, resumes - used) == expected
      decreases resumes - used
    {
      var answer := if used < |answers| then answers[used] else default;
      result := Execute(g, result.state, Some((result.at, answer)), Completed(result));
      used := used + 1;
    }
    d := Driven(result, used);
  }

  // ----- the reference: every question is answered on the spot -----

  datatype Trace<+S, +N> = Trace(state: S, why: Stop, used: nat, log: seq<N>)

  /** No node calls `interrupt()` a second time once it has been answered. */
  ghost predicate AsksOnce<S(!new), N(!new), U, A(!new)>(g: Graph<S, N, U, A>) {
    forall n, s, x :: !g.node(n, s, [x]).Ask?
  }

  predicate Asks<S, N(==), U, A>(g: Graph<S, N, U, A>, s: S, n: N) {
    n != g.end && g.node(n, s, []).Ask?
  }

  predicate Quiet<S, N(==), U, A>(g: Graph<S, N, U, A>, s: S, ns: seq<N>) {
    ns == [] || (!Asks(g, s, ns[0]) && Quiet(g, s, ns[1..]))
  }

  function Answered<S, N(==), U, A>(g: Graph<S, N, U, A>, s: S, n: N, a: nat -> A, i: nat): Attempt<U, N> {
    g.node(n, s, if Asks(g, s, n) then [a(i)] else [])
  }

  function UsedBy<S, N(==), U, A>(g: Graph<S, N, U, A>, s: S, n: N, i: nat): nat {
    if Asks(g, s, n) then i + 1 else i
  }

  datatype Step<+S, +N> = Step(state: S, next: seq<N>, used: nat)

  function DirectSweep<S, N(==), U, A>(g: Graph<S, N, U, A>, s0: S, s: S, ns: seq<N>, a: nat -> A, i: nat)
    : (st: Step<S, N>)
    ensures i <= st.used
  {
    if ns == [] then Step(s, [], i)
    else if ns[0] == g.end then DirectSweep(g, s0, s, ns[1..], a, i)
    else
      match Answered(g, s0, ns[0], a, i)
      case Done(u, goto) =>
        var s' := g.commit(s, ns[0], u);
        var rest := DirectSweep(g, s0, s', ns[1..], a, UsedBy(g, s0, ns[0], i));
        Step(rest.state, Successors(g, ns[0], s', goto) + rest.next, rest.used)
      case _ => DirectSweep(g, s0, s, ns[1..], a, UsedBy(g, s0, ns[0], i))
  }

  /** Has this frontier reached END? */
  predicate Over<S, N(==), U, A>(g: Graph<S, N, U, A>, frontier: seq<N>, st: Step<S, N>) {
    g.end in frontier || g.end in st.next
  }

  function Direct<S, N(==), U, A>(
      g: Graph<S, N, U, A>, s: S, frontier: seq<N>, a: nat -> A, i: nat, left: nat, log: seq<N>)
    : (t: Trace<S, N>)
    ensures i <= t.used
    decreases left
  {
    if frontier == [] then Trace(s, Drained, i, log)
    else if left == 0 then Trace(s, Exhausted, i, log)
    else
      var st := DirectSweep(g, s, s, frontier, a, i);
      var log' := log + Attempted(g, frontier);
      if Over(g, frontier, st) then Trace(st.state, AtEnd, st.used, log')
      else Direct(g, st.state, Dedupe(st.next), a, st.used, left - 1, log')
  }

  /** Along the direct run, a node that asks is alone in its frontier. */
  predicate Solo<S, N(==), U, A>(g: Graph<S, N, U, A>, s: S, frontier: seq<N>, a: nat -> A, i: nat, left: nat)
    decreases left
  {
    frontier == [] || left == 0 ||
    var st := DirectSweep(g, s, s, frontier, a, i);
    && (|frontier| == 1 || Quiet(g, s, frontier))
    && (Over(g, frontier, st) || Solo(g, st.state, Dedupe(st.next), a, st.used, left - 1))
  }

  // ----- refinement -----

  /** A frontier in which nobody asks is swept the same way by both. */
  lemma {:induction false} QuietSweep<S, N(!new), U, A>(
      g: Graph<S, N, U, A>, s0: S, s: S, ns: seq<N>, a: nat -> A, i: nat)
    requires Quiet(g, s0, ns)
    ensures var st := DirectSweep(g, s0, s, ns, a, i);
            st.used == i && Sweep(g, s0, s, ns, None) == Moved(st.state, st.next)
  {
    if ns == [] {
    } else if ns[0] == g.end {
      QuietSweep(g, s0, s, ns[1..], a, i);
    } else {
      match Answered(g, s0, ns[0], a, i)
      case Done(u, goto) => QuietSweep(g, s0, g.commit(s, ns[0], u), ns[1..], a, i);
      case Crash => QuietSweep(g, s0, s, ns[1..], a, i);
      case Ask =>
    }
  }

  /** What the engine does from here once the current frontier has produced `st`. */
  function Onward<S, N(==), U, A>(
      g: Graph<S, N, U, A>, frontier: seq<N>, st: Step<S, N>, left: nat, order: seq<N>): Result<S, N> {
    if Over(g, frontier, st) then Halted(st.state, AtEnd, order)
    else Run(g, st.state, Dedupe(st.next), None, left, order)
  }

  lemma QuietIteration<S(!new), N(!new), U, A(!new)>(
      g: Graph<S, N, U, A>, s: S, frontier: seq<N>, a: nat -> A, i: nat, budget: nat, order: seq<N>)
    requires frontier != [] && 0 < budget && Quiet(g, s, frontier)
    ensures var st := DirectSweep(g, s, s, frontier, a, i);
            && st.used == i
            && Run(g, s, frontier, None, budget, order)
               == Onward(g, frontier, st, budget - 1, order + Attempted(g, frontier))
  {
    QuietSweep(g, s, s, frontier, a, i);
  }

  lemma SweepOne<S(!new), N(!new), U, A(!new)>(g: Graph<S, N, U, A>, s: S, n: N, resume: Option<(N, A)>)
    requires n != g.end
    ensures Sweep(g, s, s, [n], resume)
         == match AttemptNode(g, s, n, resume)
            case Ask => Held(s, n)
            case Crash => Moved(s, [])
            case Done(u, goto) => Moved(g.commit(s, n, u), Successors(g, n, g.commit(s, n, u), goto))
  {
    assert [n][1..] == [];
  }

  lemma DirectSweepOne<S(!new), N(!new), U, A(!new)>(g: Graph<S, N, U, A>, s: S, n: N, a: nat -> A, i: nat)
    requires n != g.end
    ensures DirectSweep(g, s, s, [n], a, i)
         == match Answered(g, s, n, a, i)
            case Done(u, goto) =>
              Step(g.commit(s, n, u), Successors(g, n, g.commit(s, n, u), goto), UsedBy(g, s, n, i))
            case _ => Step(s, [], UsedBy(g, s, n, i))
  {
    assert [n][1..] == [];
  }

  /** A lone question: the engine pauses, and the answered call is what the direct run does at once. */
  lemma AskingIteration<S(!new), N(!new), U, A(!new)>(
      g: Graph<S, N, U, A>, s: S, frontier: seq<N>, a: nat -> A, i: nat, budget: nat, order: seq<N>)
    requires AsksOnce(g) && |frontier| == 1 && !Quiet(g, s, frontier) && 0 < budget <= g.cap
    ensures var st := DirectSweep(g, s, s, frontier, a, i);
            var r := Run(g, s, frontier, None, budget, order);
            && st.used == i + 1
            && r.Paused? && r.state == s && Completed(r) == order
            && Call(g, s, Some((r.at, a(i))), order)
               == Onward(g, frontier, st, g.cap - 1, order + Attempted(g, frontier))
  {
    var n, x := frontier[0], a(i);
    assert frontier == [n] && frontier[1..] == [] && Asks(g, s, n);
    assert !g.node(n, s, [x]).Ask?;
    DirectSweepOne(g, s, n, a, i);
    SweepOne(g, s, n, None);
    SweepOne(g, s, n, Some((n, x)));
    assert (order + [n])[..|order|] == order;
  }

  // ----- the driver, iteration by iteration -----

  lemma {:induction false} BeforeAppends<N>(x: seq<N>, y: seq<N>, n: N)
    requires n in y
    ensures Before(x + y, n) == x + Before(y, n)
  {
    var front, last := y[..|y| - 1], y[|y| - 1];
    assert (x + y)[..|x + y| - 1] == x + front;
    if last != n {
      assert n in front;
      BeforeAppends(x, front, n);
    }
  }

  lemma {:induction false} BeforeMiddle<N>(x: seq<N>, n: N, y: seq<N>)
    requires n !in y
    ensures Before(x + [n] + y, n) == x
  {
    var all := x + [n] + y;
    if y == [] {
      assert all[..|all| - 1] == x;
    } else {
      assert all[..|all| - 1] == x + [n] + y[..|y| - 1];
      assert all[|all| - 1] == y[|y| - 1] && y[|y| - 1] in y;
      BeforeMiddle(x, n, y[..|y| - 1]);
    }
  }

  /** The place of the first node that asks. */
  function FirstAsker<S, N(==), U, A>(g: Graph<S, N, U, A>, s: S, ns: seq<N>): (k: nat)
    requires !Quiet(g, s, ns)
    ensures k < |ns| && Asks(g, s, ns[k])
  {
    if Asks(g, s, ns[0]) then 0 else 1 + FirstAsker(g, s, ns[1..])
  }

  lemma {:induction false} QuietBeforeFirstAsker<S, N(!new), U, A>(g: Graph<S, N, U, A>, s: S, ns: seq<N>)
    requires !Quiet(g, s, ns)
    ensures Quiet(g, s, ns[..FirstAsker(g, s, ns)])
  {
    var k := FirstAsker(g, s, ns);
    if k > 0 {
      QuietBeforeFirstAsker(g, s, ns[1..]);
      assert ns[..k][1..] == ns[1..][..k - 1];
    }
  }

  lemma {:induction false} FirstAskerIs<S, N(!new), U, A>(
      g: Graph<S, N, U, A>, s: S, front: seq<N>, n: N, back: seq<N>)
    requires Quiet(g, s, front) && Asks(g, s, n)
    ensures !Quiet(g, s, front + [n] + back) && FirstAsker(g, s, front + [n] + back) == |front|
  {
    if front != [] {
      assert (front + [n] + back)[1..] == front[1..] + [n] + back;
      FirstAskerIs(g, s, front[1..], n, back);
    }
  }

  /** A frontier whose quiet part comes first: the call pauses with that part merged, and nothing of what is behind. */
  lemma {:induction false} HeldSweep<S, N(!new), U, A>(
      g: Graph<S, N, U, A>, s0: S, s: S, front: seq<N>, n: N, back: seq<N>, a: nat -> A, i: nat)
    requires Quiet(g, s0, front) && Asks(g, s0, n)
    ensures Sweep(g, s0, s, front + [n] + back, None) == Held(DirectSweep(g, s0, s, front, a, i).state, n)
  {
    if front != [] {
      assert (front + [n] + back)[1..] == front[1..] + [n] + back;
      if front[0] == g.end {
        HeldSweep(g, s0, s, front[1..], n, back, a, i);
      } else {
        match Answered(g, s0, front[0], a, i)
        case Done(u, goto) => HeldSweep(g, s0, g.commit(s, front[0], u), front[1..], n, back, a, i);
        case Crash => HeldSweep(g, s0, s, front[1..], n, back, a, i);
        case Ask =>
      }
    }
  }

  /** The state in which an asking frontier is paused. */
  function HeldState<S, N(==), U, A>(g: Graph<S, N, U, A>, s: S, frontier: seq<N>, a: nat -> A, i: nat): S
    requires !Quiet(g, s, frontier)
  {
    DirectSweep(g, s, s, frontier[..FirstAsker(g, s, frontier)], a, i).state
  }

  lemma PausingIteration<S(!new), N(!new), U, A(!new)>(
      g: Graph<S, N, U, A>, s: S, frontier: seq<N>, a: nat -> A, i: nat, budget: nat, order: seq<N>)
    requires 0 < budget && !Quiet(g, s, frontier)
    ensures Run(g, s, frontier, None, budget, order)
         == Paused(HeldState(g, s, frontier, a, i), frontier[FirstAsker(g, s, frontier)],
                   order + Attempted(g, frontier))
  {
    var k := FirstAsker(g, s, frontier);
    QuietBeforeFirstAsker(g, s, frontier);
    assert frontier == frontier[..k] + [frontier[k]] + frontier[k + 1..];
    HeldSweep(g, s, s, frontier[..k], frontier[k], frontier[k + 1..], a, i);
  }

  /** A resumed node runs alone, against the state that was held, with one answer. */
  function Resumed<S, N, U, A>(g: Graph<S, N, U, A>, s: S, n: N, a: nat -> A, i: nat): Step<S, N> {
    match g.node(n, s, [a(i)])
    case Done(u, goto) => Step(g.commit(s, n, u), Successors(g, n, g.commit(s, n, u), goto), i + 1)
    case _ => Step(s, [], i + 1)
  }

  lemma ResumedCall<S(!new), N(!new), U, A(!new)>(
      g: Graph<S, N, U, A>, s: S, n: N, a: nat -> A, i: nat, history: seq<N>)
    requires n != g.end && 0 < g.cap && !g.node(n, s, [a(i)]).Ask?
    ensures Call(g, s, Some((n, a(i))), history) == Onward(g, [n], Resumed(g, s, n, a, i), g.cap - 1, history + [n])
  {
    SweepOne(g, s, n, Some((n, a(i))));
  }

  /** The nodes the driver has completed once the question of an asking frontier is answered. */
  function AnsweredLog<S, N(==), U, A>(g: Graph<S, N, U, A>, s: S, frontier: seq<N>, order: seq<N>): seq<N>
    requires !Quiet(g, s, frontier)
  {
    var n := frontier[FirstAsker(g, s, frontier)];
    Before(order + Attempted(g, frontier), n) + [n]
  }

  /** The driver as a single run: a question costs one resume, drops what stood behind the asking node and the
    * successors of what stood before it, and starts a new budget of `cap` iterations.
    */
  function PerCall<S, N(==), U, A>(
      g: Graph<S, N, U, A>, s: S, frontier: seq<N>, a: nat -> A, i: nat, budget: nat, order: seq<N>, resumes: nat)
    : Driven<S, N>
    requires budget <= g.cap
    decreases resumes, budget, 0
  {
    if frontier == [] then Driven(Halted(s, Drained, order), i)
    else if budget == 0 then Driven(Halted(s, Exhausted, order), i)
    else if Quiet(g, s, frontier) then
      PerCallOnward(g, frontier, DirectSweep(g, s, s, frontier, a, i), a, budget - 1,
                    order + Attempted(g, frontier), resumes)
    else
      var n, held := frontier[FirstAsker(g, s, frontier)], HeldState(g, s, frontier, a, i);
      if resumes == 0 then Driven(Paused(held, n, order + Attempted(g, frontier)), i)
      else
        PerCallOnward(g, [n], Resumed(g, held, n, a, i), a, g.cap - 1, AnsweredLog(g, s, frontier, order), resumes - 1)
  }

  function PerCallOnward<S, N(==), U, A>(
      g: Graph<S, N, U, A>, frontier: seq<N>, st: Step<S, N>, a: nat -> A, budget: nat, order: seq<N>, resumes: nat)
    : Driven<S, N>
    requires budget <= g.cap
    decreases resumes, budget, 1
  {
    if Over(g, frontier, st) then Driven(Halted(st.state, AtEnd, order), st.used)
    else PerCall(g, st.state, Dedupe(st.next), a, st.used, budget, order, resumes)
  }

  /** MAIN RESULT. In every graph whose nodes ask at most once, from every frontier, with every budget and every number
    * of resumes, interrupting and resuming is that run: pauses left unanswered and exhausted calls included.
    */
  lemma {:induction false} DriveIsPerCall<S(!new), N(!new), U, A(!new)>(
      g: Graph<S, N, U, A>, s: S, frontier: seq<N>, a: nat -> A, i: nat, budget: nat, order: seq<N>, resumes: nat)
    requires AsksOnce(g) && budget <= g.cap
    ensures Drive(g, Run(g, s, frontier, None, budget, order), a, i, resumes)
         == PerCall(g, s, frontier, a, i, budget, order, resumes)
    decreases resumes, budget, 0
  {
    if frontier != [] && budget > 0 {
      if Quiet(g, s, frontier) {
        QuietIteration(g, s, frontier, a, i, budget, order);
        OnwardIsPerCall(g, frontier, DirectSweep(g, s, s, frontier, a, i), a, budget - 1,
                        order + Attempted(g, frontier), resumes);
      } else {
        AskingIsPerCall(g, s, frontier, a, i, budget, order, resumes);
      }
    }
  }

  lemma {:induction false} AskingIsPerCall<S(!new), N(!new), U, A(!new)>(
      g: Graph<S, N, U, A>, s: S, frontier: seq<N>, a: nat -> A, i: nat, budget: nat, order: seq<N>, resumes: nat)
    requires AsksOnce(g) && 0 < budget <= g.cap && !Quiet(g, s, frontier)
    ensures Drive(g, Run(g, s, frontier, None, budget, order), a, i, resumes)
         == PerCall(g, s, frontier, a, i, budget, order, resumes)
    decreases resumes, 0, 2
  {
    hide Run, Call, Onward, HeldState, Resumed;
    var n, held := frontier[FirstAsker(g, s, frontier)], HeldState(g, s, frontier, a, i);
    PausingIteration(g, s, frontier, a, i, budget, order);
    if resumes > 0 {
      assert !g.node(n, held, [a(i)]).Ask?;
      ResumedCall(g, held, n, a, i, Before(order + Attempted(g, frontier), n));
      ResumedUses(g, held, n, a, i);
      OnwardIsPerCall(g, [n], Resumed(g, held, n, a, i), a, g.cap - 1, AnsweredLog(g, s, frontier, order), resumes - 1);
    }
  }

  lemma ResumedUses<S, N, U, A>(g: Graph<S, N, U, A>, s: S, n: N, a: nat -> A, i: nat)
    ensures Resumed(g, s, n, a, i).used == i + 1
  {
  }

  lemma {:induction false} OnwardIsPerCall<S(!new), N(!new), U, A(!new)>(
      g: Graph<S, N, U, A>, frontier: seq<N>, st: Step<S, N>, a: nat -> A, budget: nat, order: seq<N>, resumes: nat)
    requires AsksOnce(g) && budget <= g.cap
    ensures Drive(g, Onward(g, frontier, st, budget, order), a, st.used, resumes)
         == PerCallOnward(g, frontier, st, a, budget, order, resumes)
    decreases resumes, budget, 1
  {
    if !Over(g, frontier, st) {
      DriveIsPerCall(g, st.state, Dedupe(st.next), a, st.used, budget, order, resumes);
    }
  }

  // ----- exactly when interrupting makes no difference -----

  /** Where a run stands after an iteration. */
  datatype Point<+S, +N> =
    | Finished(state: S, used: nat, log: seq<N>)
    | Going(state: S, frontier: seq<N>, used: nat, log: seq<N>)

  function Landing<S, N(==), U, A>(g: Graph<S, N, U, A>, frontier: seq<N>, st: Step<S, N>, log: seq<N>): Point<S, N> {
    if Over(g, frontier, st) then Finished(st.state, st.used, log)
    else Going(st.state, Dedupe(st.next), st.used, log)
  }

  function ResumedStep<S, N(==), U, A>(g: Graph<S, N, U, A>, s: S, frontier: seq<N>, a: nat -> A, i: nat): Step<S, N>
    requires !Quiet(g, s, frontier)
  {
    Resumed(g, HeldState(g, s, frontier, a, i), frontier[FirstAsker(g, s, frontier)], a, i)
  }

  /** Answering an asking frontier on the spot and pausing, answering and resuming it lead to the same point. */
  ghost predicate Alike<S, N, U, A>(g: Graph<S, N, U, A>, s: S, frontier: seq<N>, a: nat -> A, i: nat)
    requires !Quiet(g, s, frontier)
  {
    Landing(g, frontier, DirectSweep(g, s, s, frontier, a, i), Attempted(g, frontier))
    == Landing(g, [frontier[FirstAsker(g, s, frontier)]], ResumedStep(g, s, frontier, a, i),
               AnsweredLog(g, s, frontier, []))
  }

  /** Along the direct run, no question makes a difference. */
  ghost predicate Harmless<S, N, U, A>(g: Graph<S, N, U, A>, s: S, frontier: seq<N>, a: nat -> A, i: nat, left: nat)
    decreases left
  {
    frontier == [] || left == 0 ||
    var st := DirectSweep(g, s, s, frontier, a, i);
    && (Quiet(g, s, frontier) || Alike(g, s, frontier, a, i))
    && (Over(g, frontier, st) || Harmless(g, st.state, Dedupe(st.next), a, st.used, left - 1))
  }

  /** The most iterations that any one call of the driver takes when the direct run is paused at its questions; `run`
    * of them have been taken by the present call. A paused iteration counts in the call that pauses and, once
    * answered, as the first of the next.
    */
  function LongestCall<S, N(==), U, A>(
      g: Graph<S, N, U, A>, s: S, frontier: seq<N>, a: nat -> A, i: nat, left: nat, run: nat): (m: nat)
    ensures run <= m <= run + left
    ensures frontier != [] && left != 0 ==> run < m
    decreases left, 0
  {
    if frontier == [] || left == 0 then run
    else
      var st := DirectSweep(g, s, s, frontier, a, i);
      if Quiet(g, s, frontier) then LongestOnward(g, frontier, st, a, left - 1, run + 1)
      else
        var later := LongestOnward(g, frontier, st, a, left - 1, 1);
        if later > run + 1 then later else run + 1
  }

  function LongestOnward<S, N(==), U, A>(
      g: Graph<S, N, U, A>, frontier: seq<N>, st: Step<S, N>, a: nat -> A, left: nat, run: nat): (m: nat)
    ensures run <= m <= run + left
    decreases left, 1
  {
    if Over(g, frontier, st) then run else LongestCall(g, st.state, Dedupe(st.next), a, st.used, left, run)
  }

  /** What the direct run does from here once the current frontier has produced `st`. */
  function DirectOnward<S, N(==), U, A>(
      g: Graph<S, N, U, A>, frontier: seq<N>, st: Step<S, N>, a: nat -> A, left: nat, log: seq<N>)
    : Trace<S, N>
  {
    if Over(g, frontier, st) then Trace(st.state, AtEnd, st.used, log)
    else Direct(g, st.state, Dedupe(st.next), a, st.used, left, log)
  }

  ghost predicate HarmlessOnward<S, N, U, A>(
      g: Graph<S, N, U, A>, frontier: seq<N>, st: Step<S, N>, a: nat -> A, left: nat)
  {
    Over(g, frontier, st) || Harmless(g, st.state, Dedupe(st.next), a, st.used, left)
  }

  /** The driver finished exactly like the direct run, having completed the same nodes. */
  ghost predicate SameFinish<S, N>(t: Trace<S, N>, d: Driven<S, N>) {
    d == Driven(Halted(t.state, t.why, t.log), t.used)
  }

  lemma {:induction false} AttemptedHas<S, N, U, A>(g: Graph<S, N, U, A>, frontier: seq<N>, n: N)
    requires n in frontier && n != g.end
    ensures n in Attempted(g, frontier)
  {
    if g.end in frontier { WithoutHas(frontier, g.end, n); }
  }

  lemma {:induction false} WithoutHas<N>(ns: seq<N>, x: N, n: N)
    requires n in ns && n != x
    ensures n in Without(ns, x)
  {
    if ns[0] != n {
      assert n in ns[1..];
      WithoutHas(ns[1..], x, n);
    }
  }

  lemma FirstAskerIsThere<S, N, U, A>(g: Graph<S, N, U, A>, s: S, frontier: seq<N>)
    requires !Quiet(g, s, frontier)
    ensures var n := frontier[FirstAsker(g, s, frontier)]; n in frontier && n != g.end
  {
  }

  /** What `Alike` says about the two steps themselves, whatever was completed before. */
  lemma AlikeSteps<S(!new), N(!new), U, A>(
      g: Graph<S, N, U, A>, s: S, frontier: seq<N>, a: nat -> A, i: nat, order: seq<N>)
    requires !Quiet(g, s, frontier) && Alike(g, s, frontier, a, i)
    ensures
      var st, rs := DirectSweep(g, s, s, frontier, a, i), ResumedStep(g, s, frontier, a, i);
      && (Over(g, frontier, st) <==> Over(g, [frontier[FirstAsker(g, s, frontier)]], rs))
      && st.state == rs.state && st.used == rs.used == i + 1
      && (Over(g, frontier, st) || Dedupe(st.next) == Dedupe(rs.next))
      && AnsweredLog(g, s, frontier, order) == order + Attempted(g, frontier)
  {
    hide DirectSweep, HeldState, Dedupe, Attempted, Before, Quiet, FirstAsker, Resumed, Over, Asks;
    var n, x := frontier[FirstAsker(g, s, frontier)], Attempted(g, frontier);
    assert n in frontier && n != g.end by { FirstAskerIsThere(g, s, frontier); }
    ResumedUses(g, HeldState(g, s, frontier, a, i), n, a, i);
    AttemptedHas(g, frontier, n);
    BeforeAppends(order, x, n);
    assert [] + x == x;
    assert order + Before(x, n) + [n] == order + (Before(x, n) + [n]);
  }

  /** One iteration of the direct run. */
  lemma DirectUnfolds<S, N(!new), U, A>(
      g: Graph<S, N, U, A>, s: S, frontier: seq<N>, a: nat -> A, i: nat, left: nat, log: seq<N>)
    requires frontier != [] && 0 < left
    ensures
      var st := DirectSweep(g, s, s, frontier, a, i);
      && Direct(g, s, frontier, a, i, left, log)
         == DirectOnward(g, frontier, st, a, left - 1, log + Attempted(g, frontier))
      && (Harmless(g, s, frontier, a, i, left) ==> HarmlessOnward(g, frontier, st, a, left - 1))
  {
    hide DirectSweep, Attempted, Dedupe, Over, Alike;
  }

  /** One iteration without a question, in the driver and in the count of iterations. */
  lemma QuietUnfolds<S, N(!new), U, A>(
      g: Graph<S, N, U, A>, s: S, frontier: seq<N>, a: nat -> A, i: nat,
      left: nat, budget: nat, order: seq<N>, resumes: nat)
    requires frontier != [] && 0 < budget <= g.cap && 0 < left && Quiet(g, s, frontier)
    ensures
      var st := DirectSweep(g, s, s, frontier, a, i);
      && st.used == i
      && PerCall(g, s, frontier, a, i, budget, order, resumes)
         == PerCallOnward(g, frontier, st, a, budget - 1, order + Attempted(g, frontier), resumes)
      && LongestCall(g, s, frontier, a, i, left, g.cap - budget)
         == LongestOnward(g, frontier, st, a, left - 1, g.cap - (budget - 1))
  {
    QuietSweep(g, s, s, frontier, a, i);
    hide DirectSweep, Attempted, PerCallOnward, LongestOnward;
  }

  /** One iteration with a question. */
  lemma AskingUnfolds<S(!new), N(!new), U, A(!new)>(
      g: Graph<S, N, U, A>, s: S, frontier: seq<N>, a: nat -> A, i: nat,
      left: nat, budget: nat, order: seq<N>, resumes: nat)
    requires 0 < budget <= g.cap && 0 < left && !Quiet(g, s, frontier) && Alike(g, s, frontier, a, i)
    ensures
      var st, d := DirectSweep(g, s, s, frontier, a, i), PerCall(g, s, frontier, a, i, budget, order, resumes);
      && st.used == i + 1
      && (resumes == 0 ==> d.result.Paused?)
      && (resumes > 0 ==>
            d == PerCallOnward(g, frontier, st, a, g.cap - 1, order + Attempted(g, frontier), resumes - 1))
      && (LongestCall(g, s, frontier, a, i, left, g.cap - budget) <= g.cap
          <==> LongestOnward(g, frontier, st, a, left - 1, 1) <= g.cap)
  {
    hide DirectSweep, Attempted, Dedupe, Over, Alike, HeldState, Resumed;
    AlikeSteps(g, s, frontier, a, i, order);
  }

  lemma HarmlessIsAlike<S, N(!new), U, A>(
      g: Graph<S, N, U, A>, s: S, frontier: seq<N>, a: nat -> A, i: nat, left: nat)
    requires Harmless(g, s, frontier, a, i, left) && 0 < left && !Quiet(g, s, frontier)
    ensures Alike(g, s, frontier, a, i)
  {
  }

  lemma AgreesAtOnce<S(!new), N(!new), U, A(!new)>(
      g: Graph<S, N, U, A>, s: S, frontier: seq<N>, a: nat -> A, i: nat,
      left: nat, budget: nat, order: seq<N>, resumes: nat)
    requires budget <= g.cap && (frontier == [] || left == 0 || budget == 0)
    requires Direct(g, s, frontier, a, i, left, order).why != Exhausted
    ensures
      var t := Direct(g, s, frontier, a, i, left, order);
      SameFinish(t, PerCall(g, s, frontier, a, i, budget, order, resumes))
      <==> t.used <= i + resumes && LongestCall(g, s, frontier, a, i, left, g.cap - budget) <= g.cap
  {
  }

  /** MAIN RESULT. Where no question makes a difference, the driver finishes like the direct run if and only if it has a
    * resume for every question and no single call needs more than `cap` iterations.
    */
  lemma {:induction false} AgreesIff<S(!new), N(!new), U, A(!new)>(
      g: Graph<S, N, U, A>, s: S, frontier: seq<N>, a: nat -> A, i: nat,
      left: nat, budget: nat, order: seq<N>, resumes: nat)
    requires budget <= g.cap && Harmless(g, s, frontier, a, i, left)
    requires Direct(g, s, frontier, a, i, left, order).why != Exhausted
    ensures
      var t := Direct(g, s, frontier, a, i, left, order);
      SameFinish(t, PerCall(g, s, frontier, a, i, budget, order, resumes))
      <==> t.used <= i + resumes && LongestCall(g, s, frontier, a, i, left, g.cap - budget) <= g.cap
    decreases left, 0
  {
    hide DirectSweep, Attempted, Quiet, Direct, DirectOnward, Harmless;
    hide PerCall, PerCallOnward, LongestCall, LongestOnward;
    if frontier == [] || left == 0 || budget == 0 {
      AgreesAtOnce(g, s, frontier, a, i, left, budget, order, resumes);
    } else {
      var st := DirectSweep(g, s, s, frontier, a, i);
      var order' := order + Attempted(g, frontier);
      DirectUnfolds(g, s, frontier, a, i, left, order);
      if Quiet(g, s, frontier) {
        QuietUnfolds(g, s, frontier, a, i, left, budget, order, resumes);
        OnwardAgreesIff(g, frontier, st, a, left - 1, budget - 1, order', resumes);
      } else {
        HarmlessIsAlike(g, s, frontier, a, i, left);
        AskingUnfolds(g, s, frontier, a, i, left, budget, order, resumes);
        if resumes > 0 {
          OnwardAgreesIff(g, frontier, st, a, left - 1, g.cap - 1, order', resumes - 1);
        } else {
          OnwardUses(g, frontier, st, a, left - 1, order');
        }
      }
    }
  }

  lemma OnwardUses<S, N(!new), U, A>(
      g: Graph<S, N, U, A>, frontier: seq<N>, st: Step<S, N>, a: nat -> A, left: nat, log: seq<N>)
    ensures st.used <= DirectOnward(g, frontier, st, a, left, log).used
  {
  }

  lemma {:induction false} OnwardAgreesIff<S(!new), N(!new), U, A(!new)>(
      g: Graph<S, N, U, A>, frontier: seq<N>, st: Step<S, N>, a: nat -> A,
      left: nat, budget: nat, order: seq<N>, resumes: nat)
    requires budget <= g.cap && HarmlessOnward(g, frontier, st, a, left)
    requires DirectOnward(g, frontier, st, a, left, order).why != Exhausted
    ensures
      var t := DirectOnward(g, frontier, st, a, left, order);
      SameFinish(t, PerCallOnward(g, frontier, st, a, budget, order, resumes))
      <==> t.used <= st.used + resumes && LongestOnward(g, frontier, st, a, left, g.cap - budget) <= g.cap
    decreases left, 1
  {
    hide Direct, Harmless, PerCall, LongestCall, Dedupe, Over;
    if !Over(g, frontier, st) {
      AgreesIff(g, st.state, Dedupe(st.next), a, st.used, left, budget, order, resumes);
    }
  }

  ghost predicate Finishes<S, N>(d: Driven<S, N>) {
    d.result.Halted? && d.result.why != Exhausted
  }

  /** All the iterations that `resumes` further calls can take. */
  function Room(cap: nat, budget: nat, resumes: nat): nat { budget + resumes * cap }

  lemma RoomLeft(resumes: nat, cap: nat, budget: nat, left: nat)
    requires 0 < budget <= cap && Room(cap, budget, resumes) <= left
    ensures 0 < left && Room(cap, budget - 1, resumes) <= left - 1
    ensures 0 < resumes ==> Room(cap, cap - 1, resumes - 1) <= left - 1
  {
    assert (resumes - 1) * cap == resumes * cap - cap;
  }

  lemma NothingLeft<S(!new), N(!new), U, A(!new)>(
      g: Graph<S, N, U, A>, s: S, frontier: seq<N>, a: nat -> A, i: nat,
      left: nat, budget: nat, order: seq<N>, resumes: nat)
    requires budget <= g.cap && (frontier == [] || budget == 0)
    requires Finishes(PerCall(g, s, frontier, a, i, budget, order, resumes))
    ensures SameFinish(Direct(g, s, frontier, a, i, left, order),
                       PerCall(g, s, frontier, a, i, budget, order, resumes))
  {
  }

  /** What the driver finishes, a direct run with room for all its calls finishes. */
  lemma {:induction false} FinishIsDirect<S(!new), N(!new), U, A(!new)>(
      g: Graph<S, N, U, A>, s: S, frontier: seq<N>, a: nat -> A, i: nat,
      left: nat, budget: nat, order: seq<N>, resumes: nat)
    requires budget <= g.cap && Room(g.cap, budget, resumes) <= left && Harmless(g, s, frontier, a, i, left)
    requires Finishes(PerCall(g, s, frontier, a, i, budget, order, resumes))
    ensures SameFinish(Direct(g, s, frontier, a, i, left, order),
                       PerCall(g, s, frontier, a, i, budget, order, resumes))
    decreases left, 0
  {
    hide DirectSweep, Attempted, Direct, DirectOnward, Harmless, PerCall, PerCallOnward, Room, Quiet;
    if frontier == [] || budget == 0 {
      NothingLeft(g, s, frontier, a, i, left, budget, order, resumes);
    } else {
      var st := DirectSweep(g, s, s, frontier, a, i);
      var order' := order + Attempted(g, frontier);
      RoomLeft(resumes, g.cap, budget, left);
      DirectUnfolds(g, s, frontier, a, i, left, order);
      if Quiet(g, s, frontier) {
        QuietUnfolds(g, s, frontier, a, i, left, budget, order, resumes);
        OnwardIsDirect(g, frontier, st, a, left - 1, budget - 1, order', resumes);
      } else {
        HarmlessIsAlike(g, s, frontier, a, i, left);
        AskingUnfolds(g, s, frontier, a, i, left, budget, order, resumes);
        OnwardIsDirect(g, frontier, st, a, left - 1, g.cap - 1, order', resumes - 1);
      }
    }
  }

  lemma {:induction false} OnwardIsDirect<S(!new), N(!new), U, A(!new)>(
      g: Graph<S, N, U, A>, frontier: seq<N>, st: Step<S, N>, a: nat -> A,
      left: nat, budget: nat, order: seq<N>, resumes: nat)
    requires budget <= g.cap && Room(g.cap, budget, resumes) <= left && HarmlessOnward(g, frontier, st, a, left)
    requires Finishes(PerCallOnward(g, frontier, st, a, budget, order, resumes))
    ensures SameFinish(DirectOnward(g, frontier, st, a, left, order),
                       PerCallOnward(g, frontier, st, a, budget, order, resumes))
    decreases left, 1
  {
    hide Direct, Harmless, PerCall, Dedupe, Over, Room;
    if !Over(g, frontier, st) {
      FinishIsDirect(g, st.state, Dedupe(st.next), a, st.used, left, budget, order, resumes);
    }
  }

  /** The same for a whole run, in terms of the driver itself. */
  lemma DriverAgreesIff<S(!new), N(!new), U, A(!new)>(
      g: Graph<S, N, U, A>, s: S, a: nat -> A, left: nat, resumes: nat)
    requires AsksOnce(g) && Harmless(g, s, g.start, a, 0, left)
    requires Direct(g, s, g.start, a, 0, left, []).why != Exhausted
    ensures
      var t := Direct(g, s, g.start, a, 0, left, []);
      SameFinish(t, Drive(g, Call(g, s, None, []), a, 0, resumes))
      <==> t.used <= resumes && LongestCall(g, s, g.start, a, 0, left, 0) <= g.cap
  {
    hide Direct, PerCall, LongestCall, Drive;
    DriveIsPerCall(g, s, g.start, a, 0, g.cap, [], resumes);
    AgreesIff(g, s, g.start, a, 0, left, g.cap, [], resumes);
  }

  /** MAIN RESULT, for a whole run and a direct run with room for all its calls: when the driver finishes at all. */
  lemma DriverFinishesIff<S(!new), N(!new), U, A(!new)>(
      g: Graph<S, N, U, A>, s: S, a: nat -> A, left: nat, resumes: nat)
    requires AsksOnce(g) && Harmless(g, s, g.start, a, 0, left) && (resumes + 1) * g.cap <= left
    ensures
      var t := Direct(g, s, g.start, a, 0, left, []);
      Finishes(Drive(g, Call(g, s, None, []), a, 0, resumes))
      <==> t.why != Exhausted && t.used <= resumes && LongestCall(g, s, g.start, a, 0, left, 0) <= g.cap
  {
    hide Direct, PerCall, LongestCall, Drive;
    assert (resumes + 1) * g.cap == g.cap + resumes * g.cap;
    DriveIsPerCall(g, s, g.start, a, 0, g.cap, [], resumes);
    var t, d := Direct(g, s, g.start, a, 0, left, []), PerCall(g, s, g.start, a, 0, g.cap, [], resumes);
    if Finishes(d) {
      FinishIsDirect(g, s, g.start, a, 0, left, g.cap, [], resumes);
    }
    if t.why != Exhausted {
      AgreesIff(g, s, g.start, a, 0, left, g.cap, [], resumes);
    }
  }

  // ----- the two directions, for questions asked alone -----

  lemma LoneAskerIsAlike<S(!new), N(!new), U, A(!new)>(
      g: Graph<S, N, U, A>, s: S, frontier: seq<N>, a: nat -> A, i: nat)
    requires |frontier| == 1 && !Quiet(g, s, frontier)
    ensures Alike(g, s, frontier, a, i)
  {
    var n := frontier[0];
    assert frontier == [n] && frontier[1..] == [] && frontier[..0] == [] && Asks(g, s, n);
    DirectSweepOne(g, s, n, a, i);
    assert [] + Attempted(g, frontier) == [n];
  }

  lemma {:induction false} SoloIsHarmless<S(!new), N(!new), U, A(!new)>(
      g: Graph<S, N, U, A>, s: S, frontier: seq<N>, a: nat -> A, i: nat, left: nat)
    requires Solo(g, s, frontier, a, i, left)
    ensures Harmless(g, s, frontier, a, i, left)
    decreases left
  {
    if frontier != [] && left > 0 {
      hide DirectSweep, Alike, Dedupe;
      var st := DirectSweep(g, s, s, frontier, a, i);
      if !Quiet(g, s, frontier) { LoneAskerIsAlike(g, s, frontier, a, i); }
      if !Over(g, frontier, st) { SoloIsHarmless(g, st.state, Dedupe(st.next), a, st.used, left - 1); }
    }
  }

  /** From any point of a segment: interrupting and resuming ends where the direct run ends. */
  lemma SegmentRefines<S(!new), N(!new), U, A(!new)>(
      g: Graph<S, N, U, A>, s: S, frontier: seq<N>, a: nat -> A, i: nat,
      left: nat, budget: nat, order: seq<N>, resumes: nat)
    requires AsksOnce(g) && left <= budget <= g.cap
    requires Harmless(g, s, frontier, a, i, left)
    requires var t := Direct(g, s, frontier, a, i, left, order);
             t.why != Exhausted && t.used <= i + resumes
    ensures SameFinish(Direct(g, s, frontier, a, i, left, order),
                       Drive(g, Run(g, s, frontier, None, budget, order), a, i, resumes))
  {
    hide Direct, PerCall, LongestCall, Drive;
    DriveIsPerCall(g, s, frontier, a, i, budget, order, resumes);
    AgreesIff(g, s, frontier, a, i, left, budget, order, resumes);
    var m := LongestCall(g, s, frontier, a, i, left, g.cap - budget);
  }

  /** If the uninterrupted run finishes within the iteration cap, then the driver that is given at least as many
    * resumes as that run asks questions finishes in the same state, for the same reason, having used the same answers
    * and completed the same nodes in the same order.
    */
  lemma PauseResumeRefinesDirect<S(!new), N(!new), U, A(!new)>(
      g: Graph<S, N, U, A>, s: S, a: nat -> A, left: nat, resumes: nat)
    requires AsksOnce(g) && left <= g.cap && Solo(g, s, g.start, a, 0, left)
    requires Direct(g, s, g.start, a, 0, left, []).why != Exhausted
    requires Direct(g, s, g.start, a, 0, left, []).used <= resumes
    ensures SameFinish(Direct(g, s, g.start, a, 0, left, []), Drive(g, Call(g, s, None, []), a, 0, resumes))
  {
    SoloIsHarmless(g, s, g.start, a, 0, left);
    SegmentRefines(g, s, g.start, a, 0, left, g.cap, [], resumes);
  }

  /** Other way round: there is no cap on the total here, only on each call. */
  lemma DriverFinishesOnlyWhatDirectDoes<S(!new), N(!new), U, A(!new)>(
      g: Graph<S, N, U, A>, s: S, a: nat -> A, left: nat, resumes: nat)
    requires AsksOnce(g) && Solo(g, s, g.start, a, 0, left)
    requires (resumes + 1) * g.cap <= left
    requires Finishes(Drive(g, Call(g, s, None, []), a, 0, resumes))
    ensures SameFinish(Direct(g, s, g.start, a, 0, left, []), Drive(g, Call(g, s, None, []), a, 0, resumes))
  {
    hide Direct, PerCall, Drive;
    assert (resumes + 1) * g.cap == g.cap + resumes * g.cap;
    SoloIsHarmless(g, s, g.start, a, 0, left);
    DriveIsPerCall(g, s, g.start, a, 0, g.cap, [], resumes);
    FinishIsDirect(g, s, g.start, a, 0, left, g.cap, [], resumes);
  }

  // ----- walking a graph one node at a time -----

  /** A finished node with a single successor: the direct run moves on to it, or stops if it is END. */
  lemma DirectStep<S(!new), N(!new), U, A(!new)>(
      g: Graph<S, N, U, A>, s: S, n: N, a: nat -> A, i: nat, left: nat, log: seq<N>, s': S, m: N)
    requires 0 < left && n != g.end
    requires Answered(g, s, n, a, i).Done? && s' == g.commit(s, n, Answered(g, s, n, a, i).update)
    requires Successors(g, n, s', Answered(g, s, n, a, i).goto) == [m]
    ensures Direct(g, s, [n], a, i, left, log)
         == if m == g.end then Trace(s', AtEnd, UsedBy(g, s, n, i), log + [n])
            else Direct(g, s', [m], a, UsedBy(g, s, n, i), left - 1, log + [n])
  {
    DirectSweepOne(g, s, n, a, i);
    DedupeOfDistinct([m]);
  }

  /** A node that raises: nothing is merged, nothing follows, and the run ends with an empty frontier. */
  lemma DirectCrash<S(!new), N(!new), U, A(!new)>(
      g: Graph<S, N, U, A>, s: S, n: N, a: nat -> A, i: nat, left: nat, log: seq<N>)
    requires 0 < left && n != g.end && Answered(g, s, n, a, i).Crash?
    ensures Direct(g, s, [n], a, i, left, log) == Trace(s, Drained, UsedBy(g, s, n, i), log + [n])
  {
    DirectSweepOne(g, s, n, a, i);
  }

  /** The same step inside one call of `execute`, for a node that is being resumed or asks nothing. */
  lemma RunStep<S(!new), N(!new), U, A(!new)>(
      g: Graph<S, N, U, A>, s: S, n: N, resume: Option<(N, A)>, left: nat, order: seq<N>, s': S, m: N)
    requires 0 < left && n != g.end
    requires AttemptNode(g, s, n, resume).Done? && s' == g.commit(s, n, AttemptNode(g, s, n, resume).update)
    requires Successors(g, n, s', AttemptNode(g, s, n, resume).goto) == [m]
    ensures Run(g, s, [n], resume, left, order)
         == if m == g.end then Halted(s', AtEnd, order + [n]) else Run(g, s', [m], None, left - 1, order + [n])
  {
    SweepOne(g, s, n, resume);
    DedupeOfDistinct([m]);
  }

  /** A node that raises ends the call with an empty frontier. */
  lemma RunCrash<S(!new), N(!new), U, A(!new)>(
      g: Graph<S, N, U, A>, s: S, n: N, resume: Option<(N, A)>, left: nat, order: seq<N>)
    requires 0 < left && n != g.end && AttemptNode(g, s, n, resume).Crash?
    ensures Run(g, s, [n], resume, left, order) == Halted(s, Drained, order + [n])
  {
    SweepOne(g, s, n, resume);
  }

  /** A lone node that asks and is not being resumed pauses the call. */
  lemma AskStep<S(!new), N(!new), U, A(!new)>(g: Graph<S, N, U, A>, s: S, n: N, left: nat, order: seq<N>)
    requires 0 < left && n != g.end && g.node(n, s, []).Ask?
    ensures Run(g, s, [n], None, left, order) == Paused(s, n, order + [n])
  {
    SweepOne(g, s, n, None);
  }

  // ----- when the side conditions hold, and what goes wrong without them -----

  /** Every node has at most one successor, by edge or by goto. */
  ghost predicate Sequential<S(!new), N(!new), U(!new), A(!new)>(g: Graph<S, N, U, A>) {
    && |g.start| <= 1
    && (forall n, s :: |g.next(n, s)| <= 1)
    && (forall n, s, answers {:trigger g.node(n, s, answers)} ::
          g.node(n, s, answers).Done? && g.node(n, s, answers).goto.Some? ==> |g.node(n, s, answers).goto.value| <= 1)
  }

  lemma OneSuccessor<S(!new), N(!new), U(!new), A(!new)>(g: Graph<S, N, U, A>, s: S, n: N, a: nat -> A, i: nat)
    requires Sequential(g)
    ensures |DirectSweep(g, s, s, [n], a, i).next| <= 1
  {
    if n == g.end {
      assert [n][1..] == [];
    } else {
      DirectSweepOne(g, s, n, a, i);
      hide DirectSweep;
      var attempt := Answered(g, s, n, a, i);
      var answers := if Asks(g, s, n) then [a(i)] else [];
      assert attempt == g.node(n, s, answers);
    }
  }

  /** In a sequential graph questions are always asked alone. */
  lemma {:induction false} SequentialIsSolo<S(!new), N(!new), U(!new), A(!new)>(
      g: Graph<S, N, U, A>, s: S, frontier: seq<N>, a: nat -> A, i: nat, left: nat)
    requires Sequential(g) && |frontier| <= 1
    ensures Solo(g, s, frontier, a, i, left)
    decreases left
  {
    if frontier != [] && left != 0 {
      var st := DirectSweep(g, s, s, frontier, a, i);
      assert frontier == [frontier[0]];
      OneSuccessor(g, s, frontier[0], a, i);
      DedupeKeepsElements(st.next);
      SequentialIsSolo(g, st.state, Dedupe(st.next), a, st.used, left - 1);
    }
  }

  /** MAIN RESULT, for the common case: in a sequential graph whose nodes ask at most once, the driver finishes like an
    * uninterrupted run that finishes, if and only if it has a resume for every question and no call needs more than
    * `cap` iterations.
    */
  lemma SequentialAgreesIff<S(!new), N(!new), U(!new), A(!new)>(
      g: Graph<S, N, U, A>, s: S, a: nat -> A, left: nat, resumes: nat)
    requires Sequential(g) && AsksOnce(g)
    requires Direct(g, s, g.start, a, 0, left, []).why != Exhausted
    ensures
      var t := Direct(g, s, g.start, a, 0, left, []);
      SameFinish(t, Drive(g, Call(g, s, None, []), a, 0, resumes))
      <==> t.used <= resumes && LongestCall(g, s, g.start, a, 0, left, 0) <= g.cap
  {
    hide Direct, Drive, Call, LongestCall, Solo, Harmless;
    SequentialIsSolo(g, s, g.start, a, 0, left);
    SoloIsHarmless(g, s, g.start, a, 0, left);
    DriverAgreesIff(g, s, a, left, resumes);
  }

  /** A node that interrupts again after every answer is never completed: each resume restarts it,
    * its first `interrupt()` takes the only answer and its second pauses again.
    */
  lemma {:induction false} SecondQuestionIsNeverAnswered<S(!new), N(!new), U, A(!new)>(
      g: Graph<S, N, U, A>, s: S, n: N, order: seq<N>, a: nat -> A, i: nat, resumes: nat)
    requires 0 < g.cap && n != g.end && (forall x :: g.node(n, s, [x]).Ask?)
    ensures Drive(g, Paused(s, n, order + [n]), a, i, resumes) == Driven(Paused(s, n, order + [n]), i + resumes)
    decreases resumes
  {
    if resumes > 0 {
      var x := a(i);
      assert (order + [n])[..|order|] == order;
      SweepOne(g, s, n, Some((n, x)));
      assert Call(g, s, Some((n, x)), order) == Paused(s, n, order + [n]);
      SecondQuestionIsNeverAnswered(g, s, n, order, a, i + 1, resumes - 1);
    }
  }
}
