/** Author against critic: draft, review, revise, with a cap that counts only non-empty revision requests. */
module CriticLoop {
  import opened CycleCheck
  import opened Prelude
  import opened Engine
  import opened Failures
  import opened PauseResume

  datatype Stage = Gather | Draft | Review | END

  /** `drafts` and `laps` count visits; `laps` also tells the critic's oracle which review this is. */
  datatype State = State(request: string, done: nat, approved: bool, drafts: nat, laps: nat)

  datatype Update = Notes | Drafted(done: nat) | Reviewed(approved: bool, request: string)

  /** The critic, unconstrained: the text of the k-th verdict, already stripped. */
  type Critic = nat -> string

  function Upper(c: char): char {
    if 'a' <= c <= 'z' then c - 'a' + 'A' else c
  }

  predicate Approves(verdict: string) {
    |verdict| >= 7 && forall i | 0 <= i < 7 :: Upper(verdict[i]) == "APPROVE"[i]
  }

  /** A verdict approves exactly if its first seven characters spell the word, each in either case. */
  lemma ApprovesIff(verdict: string)
    ensures Approves(verdict) <==>
              |verdict| >= 7 && forall i | 0 <= i < 7 :: verdict[i] == "APPROVE"[i] || verdict[i] == "approve"[i]
  {
    forall i | 0 <= i < 7 && i < |verdict|
      ensures Upper(verdict[i]) == "APPROVE"[i] <==> verdict[i] == "APPROVE"[i] || verdict[i] == "approve"[i]
    {
      assert "APPROVE"[i] in {'A', 'P', 'R', 'O', 'V', 'E'} && "approve"[i] == "APPROVE"[i] - 'A' + 'a';
    }
  }

  const REVISION_CAP := 2

  function Body(v: Critic, n: Stage, s: State, answers: seq<string>): Attempt<Update, Stage> {
    match n
    case Gather => Done(Notes, None)
    case Draft => Done(Drafted(s.done + (if s.request != "" then 1 else 0)), None)
    case Review =>
      var verdict := v(s.laps);
      Done(Reviewed(Approves(verdict), if Approves(verdict) then "" else verdict), None)
    case END => Crash
  }

  function Commit(s: State, n: Stage, u: Update): State {
    match u
    case Notes => s
    case Drafted(done) => s.(done := done, drafts := s.drafts + 1)
    case Reviewed(approved, request) => s.(approved := approved, request := request, laps := s.laps + 1)
  }

  function Route(s: State): Stage {
    if s.approved then END else if s.done >= REVISION_CAP then END else Draft
  }

  function Next(n: Stage, s: State): seq<Stage> {
    match n
    case Gather => [Draft]
    case Draft => [Review]
    case Review => [Route(s)]
    case END => []
  }

  function Loop(v: Critic, cap: nat): Graph<State, Stage, Update, string> {
    Graph([Gather], END, (n, s, answers) => Body(v, n, s, answers), Commit, Next, cap)
  }

  function Initial(): State { State("", 0, false, 0, 0) }

  // ----- when the loop is entitled to stop -----

  /** How many of the first `k` verdicts were non-empty. */
  function Spoken(v: Critic, k: nat): nat {
    if k == 0 then 0 else Spoken(v, k - 1) + (if v(k - 1) != "" then 1 else 0)
  }

  /** Review number `k` sends the loop to END. */
  predicate Stops(v: Critic, k: nat) { Approves(v(k)) || Spoken(v, k) >= REVISION_CAP }

  ghost predicate FirstStop(v: Critic, k: nat) {
    Stops(v, k) && forall j: nat | j < k :: !Stops(v, j)
  }

  /** The state when draft number `k` is about to be written. */
  function Before(v: Critic, k: nat): State {
    State(if k == 0 then "" else v(k - 1), if k == 0 then 0 else Spoken(v, k - 1), false, k, k)
  }

  function AfterDraft(v: Critic, k: nat): State { Before(v, k).(done := Spoken(v, k), drafts := k + 1) }

  function AfterReview(v: Critic, k: nat): State {
    AfterDraft(v, k).(approved := Approves(v(k)), request := if Approves(v(k)) then "" else v(k), laps := k + 1)
  }

  lemma DraftStep(v: Critic, cap: nat, k: nat, a: nat -> string, left: nat, log: seq<Stage>)
    requires 0 < left
    ensures Direct(Loop(v, cap), Before(v, k), [Draft], a, 0, left, log)
         == Direct(Loop(v, cap), AfterDraft(v, k), [Review], a, 0, left - 1, log + [Draft])
  {
    hide Direct, DirectSweep, Approves;
    DirectStep(Loop(v, cap), Before(v, k), Draft, a, 0, left, log, AfterDraft(v, k), Review);
  }

  lemma ReviewStep(v: Critic, cap: nat, k: nat, a: nat -> string, left: nat, log: seq<Stage>)
    requires 0 < left
    ensures Direct(Loop(v, cap), AfterDraft(v, k), [Review], a, 0, left, log)
         == if Stops(v, k) then Trace(AfterReview(v, k), AtEnd, 0, log + [Review])
            else Direct(Loop(v, cap), Before(v, k + 1), [Draft], a, 0, left - 1, log + [Review])
  {
    hide Direct, DirectSweep, Approves;
    var s' := AfterReview(v, k);
    DirectStep(Loop(v, cap), AfterDraft(v, k), Review, a, 0, left, log, s', Route(s'));
  }

  /** From the k-th draft on, with `left` iterations to go. */
  lemma {:induction false} LoopFrom(
      v: Critic, cap: nat, k: nat, stop: nat, a: nat -> string, left: nat, log: seq<Stage>)
    requires k <= stop && forall j: nat | k <= j < stop :: !Stops(v, j)
    ensures var t := Direct(Loop(v, cap), Before(v, k), [Draft], a, 0, left, log);
            && (Stops(v, stop) && left >= 2 * (stop - k) + 2 ==>
                  t.why == AtEnd && t.state == AfterReview(v, stop) && t.state.drafts == stop + 1)
            && (left < 2 * (stop - k) + 2 ==> t.why == Exhausted && t.state.drafts == k + (left + 1) / 2)
    decreases left
  {
    hide DirectSweep, Dedupe, Stops, Approves, Spoken;
    if left > 0 {
      DraftStep(v, cap, k, a, left, log);
      if left > 1 {
        ReviewStep(v, cap, k, a, left - 1, log + [Draft]);
        hide Direct;
        if k < stop {
          LoopFrom(v, cap, k + 1, stop, a, left - 2, log + [Draft] + [Review]);
        }
      }
    }
  }

  function Reviewing(v: Critic, cap: nat, a: nat -> string): Trace<State, Stage> {
    Direct(Loop(v, cap), Initial(), Loop(v, cap).start, a, 0, cap, [])
  }

  lemma GatherStep(v: Critic, cap: nat, a: nat -> string)
    requires 0 < cap
    ensures Reviewing(v, cap, a) == Direct(Loop(v, cap), Before(v, 0), [Draft], a, 0, cap - 1, [] + [Gather])
  {
    hide DirectSweep, Approves;
    DirectStep(Loop(v, cap), Initial(), Gather, a, 0, cap, [], Initial(), Draft);
  }

  /** MAIN RESULT: the author drafts once more than the index of the stopping review,
    * unless `max_iterations` cuts the loop first, after every second iteration has been a draft.
    */
  lemma DraftCount(v: Critic, cap: nat, stop: nat, a: nat -> string)
    requires 0 < cap && FirstStop(v, stop)
    ensures var t := Reviewing(v, cap, a);
            if cap >= 2 * stop + 3 then t.why == AtEnd && t.state.drafts == stop + 1
            else t.why == Exhausted && t.state.drafts == cap / 2
  {
    GatherStep(v, cap, a);
    LoopFrom(v, cap, 0, stop, a, cap - 1, [] + [Gather]);
  }

  /** If no review is entitled to stop, only the engine's cap ends the loop. */
  lemma RunsToTheCap(v: Critic, cap: nat, a: nat -> string)
    requires 0 < cap && forall j: nat :: !Stops(v, j)
    ensures Reviewing(v, cap, a).why == Exhausted && Reviewing(v, cap, a).state.drafts == cap / 2
  {
    GatherStep(v, cap, a);
    LoopFrom(v, cap, 0, cap, a, cap - 1, [] + [Gather]);
  }

  // ----- exactly when some review stops the loop -----

  lemma {:induction false} SpokenGrows(v: Critic, i: nat, j: nat)
    requires i <= j
    ensures Spoken(v, i) <= Spoken(v, j)
  {
    if i < j { SpokenGrows(v, i, j - 1); }
  }

  lemma {:induction false} SpokenWitness(v: Critic, k: nat) returns (i: nat)
    requires Spoken(v, k) >= 1
    ensures i < k && v(i) != "" && Spoken(v, i) == Spoken(v, k) - 1
  {
    if v(k - 1) != "" { i := k - 1; } else { i := SpokenWitness(v, k - 1); }
  }

  /** The loop can end by itself if and only if some verdict approves or two verdicts say something. */
  lemma EndsIff(v: Critic)
    ensures (exists k: nat :: Stops(v, k)) <==>
              (exists k: nat :: Approves(v(k))) || (exists i: nat, j: nat :: i < j && v(i) != "" && v(j) != "")
  {
    if k: nat :| Stops(v, k) {
      if !Approves(v(k)) {
        var j := SpokenWitness(v, k);
        var i := SpokenWitness(v, j);
        assert i < j && v(i) != "" && v(j) != "";
      }
    }
    if k: nat :| Approves(v(k)) {
      assert Stops(v, k);
    }
    if i: nat, j: nat :| i < j && v(i) != "" && v(j) != "" {
      SpokenGrows(v, 0, i);
      SpokenGrows(v, i + 1, j);
      assert Stops(v, j + 1);
    }
  }

  /** A stopping review, made the first one. */
  lemma {:induction false} LeastStop(v: Critic, k: nat) returns (stop: nat)
    requires Stops(v, k)
    ensures stop <= k && FirstStop(v, stop)
    decreases k
  {
    if j: nat :| j < k && Stops(v, j) {
      stop := LeastStop(v, j);
    } else {
      stop := k;
    }
  }

  /** The promised bound, with the condition it needs: a critic who never rejects in silence
    * lets the author draft at most three times.
    */
  lemma AtMostThreeDrafts(v: Critic, cap: nat, a: nat -> string)
    requires cap >= 7 && forall k: nat :: v(k) != ""
    ensures Reviewing(v, cap, a).why == AtEnd && Reviewing(v, cap, a).state.drafts <= 3
  {
    assert Spoken(v, 1) == 1 && Spoken(v, 2) == 2;
    assert Stops(v, 2);
    var stop := LeastStop(v, 2);
    DraftCount(v, cap, stop, a);
  }

  /** The bound holds at every moment of the loop. */
  lemma NeverMoreThanThree(v: Critic, cap: nat, a: nat -> string, left: nat)
    requires forall k: nat :: v(k) != ""
    ensures Direct(Loop(v, cap), Initial(), [Gather], a, 0, left, []).state.drafts <= 3
  {
    hide DirectSweep, Approves;
    if left > 0 {
      assert Spoken(v, 1) == 1 && Spoken(v, 2) == 2;
      assert Stops(v, 2);
      var stop := LeastStop(v, 2);
      DirectStep(Loop(v, cap), Initial(), Gather, a, 0, left, [], Initial(), Draft);
      LoopFrom(v, cap, 0, stop, a, left - 1, [] + [Gather]);
    }
  }

  /** So it also holds when the analyst, the author or the critic raises somewhere. */
  lemma FailuresDraftNoMore(v: Critic, cap: nat, fails: (Stage, State, seq<string>) -> bool, a: nat -> string)
    requires forall k: nat :: v(k) != ""
    ensures Direct(Failing(Loop(v, cap), fails), Initial(), [Gather], a, 0, cap, []).state.drafts <= 3
  {
    hide Direct;
    assert Sequential(Loop(v, cap));
    var failure := FailingRunIsCutShort(Loop(v, cap), fails, Initial(), [Gather], a, 0, cap, []);
    NeverMoreThanThree(v, cap, a, if failure.Some? then failure.value.0 else cap);
  }

  /** Exactly when three drafts are enough, read off the first three verdicts. */
  lemma ThreeDraftsIff(v: Critic, cap: nat, a: nat -> string)
    requires cap >= 8
    ensures Reviewing(v, cap, a).state.drafts <= 3 <==>
              Approves(v(0)) || Approves(v(1)) || Approves(v(2)) || (v(0) != "" && v(1) != "")
  {
    assert Spoken(v, 0) == 0 && Spoken(v, 1) <= 1;
    assert Spoken(v, 2) >= 2 <==> v(0) != "" && v(1) != "";
    assert Stops(v, 0) || Stops(v, 1) || Stops(v, 2) <==>
             Approves(v(0)) || Approves(v(1)) || Approves(v(2)) || (v(0) != "" && v(1) != "");
    if k: nat :| Stops(v, k) {
      var stop := LeastStop(v, k);
      DraftCount(v, cap, stop, a);
    } else {
      RunsToTheCap(v, cap, a);
    }
  }

  /** The loop passes `add_edge`: its plain edges lead nowhere back, the conditional edge is not looked at. */
  lemma LoopPassesTheCycleCheck()
    ensures !Cyclic([(Gather, Draft), (Draft, Review)])
    ensures exists s :: Next(Review, s) == [Draft]
  {
    var edges: Edges<Stage> := [(Gather, Draft), (Draft, Review)];
    var order := [Review, Draft, Gather];
    forall n, m | m in Targets(edges, n) ensures (n == Gather && m == Draft) || (n == Draft && m == Review) {
      TargetsAreEdges(edges, n, m);
    }
    assert order[..1] == [Review] && order[..2] == [Review, Draft];
    SortedIsAcyclic(edges, order);
    assert Next(Review, Initial()) == [Draft];
  }

  /** Without it the bound is lost: a silent critic keeps the author at work for all 100 iterations. */
  lemma SilentCriticNeverStops(a: nat -> string)
    ensures var v: Critic := k => "";
            && Reviewing(v, 100, a).why == Exhausted && Reviewing(v, 100, a).state.drafts == 50
  {
    var v: Critic := k => "";
    forall j: nat ensures !Stops(v, j) { NothingSpoken(v, j); }
    RunsToTheCap(v, 100, a);
  }

  lemma {:induction false} NothingSpoken(v: Critic, k: nat)
    requires forall j: nat :: v(j) == ""
    ensures Spoken(v, k) == 0
  {
    if k > 0 { NothingSpoken(v, k - 1); }
  }
}
