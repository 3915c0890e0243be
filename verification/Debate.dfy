/** Incident against noise: alternating advocates, then a judge. */
module Debate {
  import opened Prelude
  import opened Engine
  import opened PauseResume
  import Retry = BoundedRetry

  datatype Stage = IncidentTurn | NoiseTurn | Judge | END

  datatype Side = Incident | Noise

  datatype Turn = Turn(side: Side, round: int, text: string)

  /** The advocates, unconstrained: what a side says in a round, given the transcript it was shown; None if its agent
    * raises.
    */
  type Advocate = (Side, int, seq<Turn>) -> Option<string>

  /** The calls of the judge's agent, unconstrained. */
  type Ruling = nat -> Retry.Attempt<string>

  datatype State = State(transcript: seq<Turn>, round: int, judged: Option<seq<Turn>>)

  /** The judge is handed the whole transcript. */
  datatype Update = Spoke(transcript: seq<Turn>) | Closed(transcript: seq<Turn>, round: int) | Ruled(on: seq<Turn>)

  /** The transcript with one more turn. */
  function Said(argue: Advocate, side: Side, s: State): Option<seq<Turn>> {
    match argue(side, s.round, s.transcript)
    case None => None
    case Some(text) => Some(s.transcript + [Turn(side, s.round, text)])
  }

  function Body(argue: Advocate, rule: Ruling, n: Stage, s: State, answers: seq<string>): Attempt<Update, Stage> {
    match n
    case IncidentTurn =>
      (match Said(argue, Incident, s)
       case None => Crash
       case Some(transcript) => Done(Spoke(transcript), None))
    case NoiseTurn =>
      (match Said(argue, Noise, s)
       case None => Crash
       case Some(transcript) => Done(Closed(transcript, s.round + 1), None))
    case Judge => if Retry.Delivers(rule) then Done(Ruled(s.transcript), None) else Crash
    case END => Crash
  }

  function Commit(s: State, n: Stage, u: Update): State {
    match u
    case Spoke(transcript) => s.(transcript := transcript)
    case Closed(transcript, round) => s.(transcript := transcript, round := round)
    case Ruled(on) => s.(judged := Some(on))
  }

  function RouteAfterNoise(s: State, rounds: int): Stage { if s.round >= rounds then Judge else IncidentTurn }

  function Next(rounds: int, n: Stage, s: State): seq<Stage> {
    match n
    case IncidentTurn => [NoiseTurn]
    case NoiseTurn => [RouteAfterNoise(s, rounds)]
    case Judge => [END]
    case END => []
  }

  function Adjudication(argue: Advocate, rule: Ruling, rounds: int, cap: nat): Graph<State, Stage, Update, string> {
    Graph([IncidentTurn], END, (n, s, answers) => Body(argue, rule, n, s, answers), Commit,
          (n, s) => Next(rounds, n, s), cap)
  }

  function SideOf(i: nat): Side { if i % 2 == 0 then Incident else Noise }

  function StageOf(i: nat): Stage { if i % 2 == 0 then IncidentTurn else NoiseTurn }

  /** Every entry was written by the side whose turn it was, after reading exactly the entries before it. */
  ghost predicate WellFormed(argue: Advocate, t: seq<Turn>) {
    forall i | 0 <= i < |t| ::
      t[i].side == SideOf(i) && t[i].round == i / 2 && argue(SideOf(i), i / 2, t[..i]) == Some(t[i].text)
  }

  /** There is only one such transcript of each length. */
  lemma {:induction false} WellFormedIsUnique(argue: Advocate, t: seq<Turn>, u: seq<Turn>)
    requires WellFormed(argue, t) && WellFormed(argue, u) && |t| == |u|
    ensures t == u
  {
    if t != [] {
      var n := |t| - 1;
      forall i | 0 <= i < n ensures t[..n][..i] == t[..i] && u[..n][..i] == u[..i] {}
      WellFormedIsUnique(argue, t[..n], u[..n]);
      assert t == t[..n] + [t[n]] && u == u[..n] + [u[n]];
    }
  }

  /** The turn after the transcript t, if its side does not raise. */
  function NextTurn(argue: Advocate, t: seq<Turn>): Option<Turn> {
    match argue(SideOf(|t|), |t| / 2, t)
    case None => None
    case Some(text) => Some(Turn(SideOf(|t|), |t| / 2, text))
  }

  /** One turn adds one well-formed entry. */
  lemma TurnExtends(argue: Advocate, t: seq<Turn>)
    requires WellFormed(argue, t) && NextTurn(argue, t).Some?
    ensures WellFormed(argue, t + [NextTurn(argue, t).value])
  {
    var t' := t + [NextTurn(argue, t).value];
    forall i | 0 <= i < |t'|
      ensures t'[i].side == SideOf(i) && t'[i].round == i / 2 && argue(SideOf(i), i / 2, t'[..i]) == Some(t'[i].text)
    {
      assert t'[..i] == t[..i];
      assert t[..|t|] == t;
    }
  }

  /** The debate when the transcript t is complete and nobody has ruled. */
  function At(t: seq<Turn>): State { State(t, |t| / 2, None) }

  /** Who comes after that many turns. */
  function StageAfter(rounds: int, i: nat): Stage {
    if i % 2 == 1 || i == 0 || i / 2 < rounds then StageOf(i) else Judge
  }

  lemma TurnStep(
      argue: Advocate, rule: Ruling, rounds: int, cap: nat, t: seq<Turn>, a: nat -> string, left: nat, log: seq<Stage>)
    requires 0 < left
    ensures
      var g := Adjudication(argue, rule, rounds, cap);
      Direct(g, At(t), [StageOf(|t|)], a, 0, left, log)
      == match NextTurn(argue, t)
         case None => Trace(At(t), Drained, 0, log + [StageOf(|t|)])
         case Some(turn) =>
           Direct(g, At(t + [turn]), [StageAfter(rounds, |t| + 1)], a, 0, left - 1, log + [StageOf(|t|)])
  {
    hide Direct, DirectSweep;
    var g := Adjudication(argue, rule, rounds, cap);
    if NextTurn(argue, t).None? {
      DirectCrash(g, At(t), StageOf(|t|), a, 0, left, log);
    } else {
      var t' := t + [NextTurn(argue, t).value];
      DirectStep(g, At(t), StageOf(|t|), a, 0, left, log, At(t'), StageAfter(rounds, |t| + 1));
    }
  }

  /** The judge was reached after that many turns, and ruled unless the agent failed. */
  ghost predicate Decided(argue: Advocate, rule: Ruling, turns: nat, t: Trace<State, Stage>) {
    && t.why == (if Retry.Delivers(rule) then AtEnd else Drained)
    && t.state.judged == (if Retry.Delivers(rule) then Some(t.state.transcript) else None)
    && |t.state.transcript| == turns && WellFormed(argue, t.state.transcript)
  }

  /** What a debate that does not reach its judge leaves: the turns so far, and nobody's ruling. */
  ghost predicate Unfinished(argue: Advocate, turns: nat, t: Trace<State, Stage>) {
    t.state.judged == None && |t.state.transcript| == turns && WellFormed(argue, t.state.transcript)
  }

  /** The first turn at which a side raises, the debate having gone undisturbed until then. */
  ghost predicate FirstFailure(argue: Advocate, u: seq<Turn>) {
    WellFormed(argue, u) && argue(SideOf(|u|), |u| / 2, u).None?
  }

  lemma JudgeStep(
      argue: Advocate, rule: Ruling, rounds: int, cap: nat, t: seq<Turn>, a: nat -> string, left: nat, log: seq<Stage>)
    requires 0 < left && WellFormed(argue, t)
    ensures Decided(argue, rule, |t|, Direct(Adjudication(argue, rule, rounds, cap), At(t), [Judge], a, 0, left, log))
  {
    hide Direct, DirectSweep, WellFormed;
    var g := Adjudication(argue, rule, rounds, cap);
    if Retry.Delivers(rule) {
      DirectStep(g, At(t), Judge, a, 0, left, log, At(t).(judged := Some(t)), END);
    } else {
      DirectCrash(g, At(t), Judge, a, 0, left, log);
    }
  }

  /** A debate that went on did not fail where it went on. */
  lemma BeginningDoesNotFail(argue: Advocate, t: seq<Turn>, u: seq<Turn>)
    requires WellFormed(argue, t) && WellFormed(argue, u) && |u| < |t|
    ensures !FirstFailure(argue, u)
  {
    var n := |u|;
    assert WellFormed(argue, t[..n]) by { forall i | 0 <= i < n ensures t[..n][..i] == t[..i] {} }
    WellFormedIsUnique(argue, t[..n], u);
    assert argue(SideOf(n), n / 2, t[..n]) == Some(t[n].text);
  }

  /** So it fails at one point at most, and not before the turns that were made. */
  lemma FailureIsUnique(argue: Advocate, t: seq<Turn>, u: seq<Turn>)
    requires WellFormed(argue, t) && FirstFailure(argue, u)
    ensures |t| <= |u| && (FirstFailure(argue, t) ==> u == t)
  {
    if |u| < |t| {
      BeginningDoesNotFail(argue, t, u);
    } else if |t| < |u| {
      BeginningDoesNotFail(argue, u, t);
    } else {
      WellFormedIsUnique(argue, t, u);
    }
  }

  /** How a debate ends when it has `limit` iterations: it fails at its first failure if that comes in time; otherwise
    * the judge is asked if all turns and the ruling fit, and nobody is if they do not.
    */
  ghost predicate Ends(argue: Advocate, rule: Ruling, turns: nat, limit: nat, r: Trace<State, Stage>) {
    && (forall u | FirstFailure(argue, u) && |u| < turns && |u| < limit ::
          r.why == Drained && Unfinished(argue, |u|, r) && r.state.transcript == u)
    && ((forall u | FirstFailure(argue, u) :: |u| >= turns || |u| >= limit) ==>
          if turns < limit then Decided(argue, rule, turns, r)
          else r.why == Exhausted && Unfinished(argue, limit, r))
  }

  lemma EndsWithJudge(argue: Advocate, rule: Ruling, t: seq<Turn>, limit: nat, r: Trace<State, Stage>)
    requires WellFormed(argue, t) && |t| < limit && Decided(argue, rule, |t|, r)
    ensures Ends(argue, rule, |t|, limit, r)
  {
    hide WellFormed, Decided;
    forall u | FirstFailure(argue, u) ensures |t| <= |u| { FailureIsUnique(argue, t, u); }
  }

  lemma EndsAtCap(argue: Advocate, rule: Ruling, turns: nat, t: seq<Turn>, log: seq<Stage>)
    requires WellFormed(argue, t) && |t| <= turns
    ensures Ends(argue, rule, turns, |t|, Trace(At(t), Exhausted, 0, log))
  {
    hide WellFormed;
    forall u | FirstFailure(argue, u) ensures |t| <= |u| { FailureIsUnique(argue, t, u); }
  }

  lemma EndsInFailure(argue: Advocate, rule: Ruling, turns: nat, t: seq<Turn>, limit: nat, log: seq<Stage>)
    requires WellFormed(argue, t) && NextTurn(argue, t).None? && |t| < turns && |t| < limit
    ensures Ends(argue, rule, turns, limit, Trace(At(t), Drained, 0, log))
  {
    assert FirstFailure(argue, t);
    hide WellFormed;
    forall u | FirstFailure(argue, u) ensures u == t { FailureIsUnique(argue, t, u); }
  }

  lemma CutOff(
      g: Graph<State, Stage, Update, string>, s: State, n: Stage, a: nat -> string, log: seq<Stage>)
    ensures Direct(g, s, [n], a, 0, 0, log) == Trace(s, Exhausted, 0, log)
  {
  }

  lemma StageIsNext(rounds: int, turns: nat, i: nat)
    requires turns == 2 * (if rounds < 1 then 1 else rounds) && 0 < i <= turns
    ensures StageAfter(rounds, i) == if i < turns then StageOf(i) else Judge
  {
  }

  lemma {:induction false} TurnsFrom(
      argue: Advocate, rule: Ruling, rounds: int, turns: nat, cap: nat, t: seq<Turn>,
      a: nat -> string, left: nat, log: seq<Stage>)
    requires turns == 2 * (if rounds < 1 then 1 else rounds) && |t| <= turns && WellFormed(argue, t)
    ensures
      var stage := if |t| < turns then StageOf(|t|) else Judge;
      Ends(argue, rule, turns, |t| + left,
           Direct(Adjudication(argue, rule, rounds, cap), At(t), [stage], a, 0, left, log))
    decreases left
  {
    hide WellFormed, Ends, Decided, Direct, Adjudication, NextTurn, StageOf, StageAfter;
    if left == 0 {
      EndsAtCap(argue, rule, turns, t, log);
      CutOff(Adjudication(argue, rule, rounds, cap), At(t), if |t| < turns then StageOf(|t|) else Judge, a, log);
    } else {
      if |t| == turns {
        JudgeStep(argue, rule, rounds, cap, t, a, left, log);
        EndsWithJudge(argue, rule, t, |t| + left,
                      Direct(Adjudication(argue, rule, rounds, cap), At(t), [Judge], a, 0, left, log));
      } else {
        TurnStep(argue, rule, rounds, cap, t, a, left, log);
        if NextTurn(argue, t).None? {
          EndsInFailure(argue, rule, turns, t, |t| + left, log + [StageOf(|t|)]);
        } else {
          TurnExtends(argue, t);
          StageIsNext(rounds, turns, |t| + 1);
          TurnsFrom(argue, rule, rounds, turns, cap, t + [NextTurn(argue, t).value], a, left - 1,
                    log + [StageOf(|t|)]);
        }
      }
    }
  }

  /** MAIN RESULT: from an empty transcript at round 0, undisturbed, the judge is asked after exactly 2 * max(1, N)
    * turns, provided these turns and the ruling fit under the cap, and nobody is otherwise. If a side raises before
    * that, the debate ends drained with the turns up to there.
    */
  lemma DebateTranscript(argue: Advocate, rule: Ruling, rounds: int, cap: nat, a: nat -> string)
    ensures
      var g := Adjudication(argue, rule, rounds, cap);
      Ends(argue, rule, 2 * if rounds < 1 then 1 else rounds, cap,
           Direct(g, State([], 0, None), g.start, a, 0, cap, []))
  {
    TurnsFrom(argue, rule, rounds, 2 * if rounds < 1 then 1 else rounds, cap, [], a, cap, []);
    hide Direct, Ends;
  }
}
