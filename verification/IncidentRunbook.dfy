/** Incident runbook: triage, severity gate, human page, mitigation, postmortem. */
module IncidentRunbook {
  import opened Prelude
  import opened Engine
  import opened PauseResume
  import Retry = BoundedRetry

  // ----- the triage clamp -----

  datatype Severity = Info | Warn | Critical

  const CRITICAL := "critical"

  const PUNCTUATION := ".,!?:;"

  predicate IsPunctuation(c: char)
    ensures IsPunctuation(c) <==> c == '.' || c == ',' || c == '!' || c == '?' || c == ':' || c == ';'
  {
    c in PUNCTUATION
  }

  function StripLeft(s: string): string {
    if s != "" && IsPunctuation(s[0]) then StripLeft(s[1..]) else s
  }

  function StripRight(s: string): string {
    if s != "" && IsPunctuation(s[|s| - 1]) then StripRight(s[..|s| - 1]) else s
  }

  /** The first lower-cased word of the model's reply, or "warn" if the reply has none. */
  function Clamp(firstWord: Option<string>): Severity {
    var sev := StripRight(StripLeft(if firstWord.Some? then firstWord.value else "warn"));
    if sev == "info" then Info else if sev == CRITICAL then Critical else Warn
  }

  ghost predicate AllPunctuation(s: string) { forall i | 0 <= i < |s| :: IsPunctuation(s[i]) }

  ghost predicate Bare(s: string) { s != "" && !IsPunctuation(s[0]) && !IsPunctuation(s[|s| - 1]) }

  lemma {:induction false} StripLeftDrops(p: string, s: string)
    requires AllPunctuation(p) && (s == "" || !IsPunctuation(s[0]))
    ensures StripLeft(p + s) == s
  {
    if p == "" {
      assert p + s == s;
    } else {
      assert (p + s)[1..] == p[1..] + s;
      StripLeftDrops(p[1..], s);
    }
  }

  lemma {:induction false} StripRightDrops(s: string, q: string)
    requires AllPunctuation(q) && (s == "" || !IsPunctuation(s[|s| - 1]))
    ensures StripRight(s + q) == s
  {
    if q == "" {
      assert s + q == s;
    } else {
      assert (s + q)[..|s + q| - 1] == s + q[..|q| - 1];
      StripRightDrops(s, q[..|q| - 1]);
    }
  }

  lemma {:induction false} StripLeftSplits(s: string) returns (p: string)
    ensures AllPunctuation(p) && s == p + StripLeft(s)
    ensures StripLeft(s) == "" || !IsPunctuation(StripLeft(s)[0])
  {
    if s != "" && IsPunctuation(s[0]) {
      var p' := StripLeftSplits(s[1..]);
      p := [s[0]] + p';
      assert s == [s[0]] + s[1..];
    } else {
      p := "";
    }
  }

  lemma {:induction false} StripRightSplits(s: string) returns (q: string)
    ensures AllPunctuation(q) && s == StripRight(s) + q
  {
    if s != "" && IsPunctuation(s[|s| - 1]) {
      var q' := StripRightSplits(s[..|s| - 1]);
      q := q' + [s[|s| - 1]];
      assert s == s[..|s| - 1] + [s[|s| - 1]];
    } else {
      q := "";
    }
  }

  /** Stripping both ends yields `core` exactly when punctuation is all that surrounds it. */
  lemma StripIff(w: string, core: string)
    requires Bare(core)
    ensures StripRight(StripLeft(w)) == core <==>
              exists p, q :: AllPunctuation(p) && AllPunctuation(q) && w == p + core + q
  {
    if StripRight(StripLeft(w)) == core {
      var p := StripLeftSplits(w);
      var q := StripRightSplits(StripLeft(w));
      assert w == p + core + q;
    }
    if p, q :| AllPunctuation(p) && AllPunctuation(q) && w == p + core + q {
      assert w == p + (core + q);
      StripLeftDrops(p, core + q);
      StripRightDrops(core, q);
    }
  }

  /** A reply is critical exactly when its first word is "critical" up to surrounding punctuation. */
  lemma CriticalIff(firstWord: Option<string>)
    ensures Clamp(firstWord) == Critical <==>
              && firstWord.Some?
              && exists p, q :: AllPunctuation(p) && AllPunctuation(q) && firstWord.value == p + "critical" + q
  {
    assert Bare("critical");
    if firstWord.Some? {
      hide StripLeft, StripRight, AllPunctuation;
      StripIff(firstWord.value, "critical");
    } else {
      assert StripLeft("warn") == "warn" && StripRight("warn") == "warn";
    }
  }

  /** Likewise for "info"; every other reply, and no reply at all, is a warning. */
  lemma InfoIff(firstWord: Option<string>)
    ensures Clamp(firstWord) == Info <==>
              && firstWord.Some?
              && exists p, q :: AllPunctuation(p) && AllPunctuation(q) && firstWord.value == p + "info" + q
  {
    assert Bare("info");
    if firstWord.Some? {
      hide StripLeft, StripRight, AllPunctuation;
      StripIff(firstWord.value, "info");
    } else {
      assert StripLeft("warn") == "warn" && StripRight("warn") == "warn";
    }
  }

  // ----- the runbook -----

  datatype Stage = Triage | Scatter | Synthesize | PageHuman | Mitigate | Postmortem | END

  /** `invocations` counts the completed calls of the mitigation agent, `postmortems` the postmortems written. */
  datatype State = State(severity: Option<Severity>, approved: Option<bool>, invocations: nat, postmortems: nat)

  datatype Update = Classified(severity: Severity) | Prose | Paged(approved: bool) | Skipped | Mitigated | Written

  const YES := "yes"

  /** The agents, unconstrained. `triage` is None when the triage agent raises; inside is the first word of its reply,
    * if there is one. The flags say whether the other prose agents return; `writer` are the postmortem agent's calls.
    */
  datatype Staff = Staff(triage: Option<Option<string>>, synthesizes: bool, mitigates: bool,
                         writer: nat -> Retry.Attempt<string>)

  /** A critical incident that nobody approved is skipped without calling the mitigation agent. */
  predicate Allowed(s: State) { s.severity != Some(Critical) || s.approved == Some(true) }

  function Body(staff: Staff, n: Stage, s: State, answers: seq<string>): Attempt<Update, Stage> {
    match n
    case Triage => if staff.triage.Some? then Done(Classified(Clamp(staff.triage.value)), None) else Crash
    case Scatter => Done(Prose, None)
    case Synthesize => if staff.synthesizes then Done(Prose, None) else Crash
    case PageHuman => if answers == [] then Ask else Done(Paged(answers[0] == YES), None)
    case Mitigate =>
      if !Allowed(s) then Done(Skipped, None)
      else if staff.mitigates then Done(Mitigated, None)
      else Crash
    case Postmortem => if Retry.Delivers(staff.writer) then Done(Written, None) else Crash
    case END => Crash
  }

  function Commit(s: State, n: Stage, u: Update): State {
    match u
    case Classified(severity) => s.(severity := Some(severity))
    case Prose => s
    case Paged(approved) => s.(approved := Some(approved))
    case Skipped => s
    case Mitigated => s.(invocations := s.invocations + 1)
    case Written => s.(postmortems := s.postmortems + 1)
  }

  function SeverityGate(s: State): Stage { if s.severity == Some(Critical) then PageHuman else Mitigate }

  function Next(n: Stage, s: State): seq<Stage> {
    match n
    case Triage => [Scatter]
    case Scatter => [Synthesize]
    case Synthesize => [SeverityGate(s)]
    case PageHuman => [Mitigate]
    case Mitigate => [Postmortem]
    case Postmortem => [END]
    case END => []
  }

  function Runbook(staff: Staff): Graph<State, Stage, Update, string> {
    Graph([Triage], END, (n, s, answers) => Body(staff, n, s, answers), Commit, Next, 100)
  }

  lemma RunbookIsSequential(staff: Staff)
    ensures Sequential(Runbook(staff)) && AsksOnce(Runbook(staff))
  {
  }

  function Responded(staff: Staff, s: State, a: nat -> string): Trace<State, Stage> {
    Direct(Runbook(staff), s, Runbook(staff).start, a, 0, 100, [])
  }

  predicate IsCritical(staff: Staff) { staff.triage.Some? && Clamp(staff.triage.value) == Critical }

  /** The stages in the order of a run. */
  function Path(critical: bool): seq<Stage> {
    [Triage, Scatter, Synthesize] + (if critical then [PageHuman] else []) + [Mitigate, Postmortem]
  }

  /** A human must be asked, and says exactly yes, before a critical incident is mitigated; whichever agent fails, the
    * run ends there with what was done before it.
    */
  ghost predicate SafeRun(staff: Staff, s: State, a: nat -> string, t: Trace<State, Stage>) {
    var critical := IsCritical(staff);
    var reached := staff.triage.Some? && staff.synthesizes;
    var allowed := reached && (!critical || a(0) == "yes");
    var mitigationEnds := reached && (allowed ==> staff.mitigates);
    && t.why == (if mitigationEnds && Retry.Delivers(staff.writer) then AtEnd else Drained)
    && t.used == (if critical && reached then 1 else 0)
    && t.state.invocations == s.invocations + (if allowed && staff.mitigates then 1 else 0)
    && t.state.postmortems == s.postmortems + (if t.why == AtEnd then 1 else 0)
    && t.log == if staff.triage.None? then [Triage]
                else if !reached then [Triage, Scatter, Synthesize]
                else if !mitigationEnds then Path(critical)[..|Path(critical)| - 1]
                else Path(critical)
  }

  /** What the mitigation stage leaves behind, if it finishes. */
  function AfterMitigation(s: State): State {
    if !Allowed(s) then s else s.(invocations := s.invocations + 1)
  }

  function ClosedOut(staff: Staff, s: State, i: nat, log: seq<Stage>): Trace<State, Stage> {
    if Allowed(s) && !staff.mitigates then Trace(s, Drained, i, log + [Mitigate])
    else if !Retry.Delivers(staff.writer) then Trace(AfterMitigation(s), Drained, i, log + [Mitigate] + [Postmortem])
    else Trace(AfterMitigation(s).(postmortems := s.postmortems + 1), AtEnd, i, log + [Mitigate] + [Postmortem])
  }

  lemma CloseOut(staff: Staff, s: State, a: nat -> string, i: nat, left: nat, log: seq<Stage>)
    requires left >= 2
    ensures Direct(Runbook(staff), s, [Mitigate], a, i, left, log) == ClosedOut(staff, s, i, log)
  {
    hide Direct, DirectSweep, Clamp, Retry.Delivers;
    var g, s1 := Runbook(staff), AfterMitigation(s);
    if Allowed(s) && !staff.mitigates {
      DirectCrash(g, s, Mitigate, a, i, left, log);
    } else {
      DirectStep(g, s, Mitigate, a, i, left, log, s1, Postmortem);
      if Retry.Delivers(staff.writer) {
        DirectStep(g, s1, Postmortem, a, i, left - 1, log + [Mitigate], s1.(postmortems := s.postmortems + 1), END);
      } else {
        DirectCrash(g, s1, Postmortem, a, i, left - 1, log + [Mitigate]);
      }
    }
  }

  /** In whatever state the mitigation stage is reached, its agent is called if and only if the incident is not
    * critical or is on record as approved.
    */
  lemma MitigationIsGuarded(staff: Staff, s: State, a: nat -> string, i: nat, left: nat, log: seq<Stage>)
    requires left >= 2 && staff.mitigates
    ensures Direct(Runbook(staff), s, [Mitigate], a, i, left, log).state.invocations
         == s.invocations + if s.severity != Some(Critical) || s.approved == Some(true) then 1 else 0
  {
    hide Direct, DirectSweep;
    CloseOut(staff, s, a, i, left, log);
  }

  function Triaged(staff: Staff, s: State): State
    requires staff.triage.Some?
  {
    s.(severity := Some(Clamp(staff.triage.value)))
  }

  lemma OpenUp(staff: Staff, s: State, a: nat -> string)
    ensures Responded(staff, s, a)
         == if staff.triage.None? then Trace(s, Drained, 0, [Triage])
            else if !staff.synthesizes then Trace(Triaged(staff, s), Drained, 0, [Triage, Scatter, Synthesize])
            else Direct(Runbook(staff), Triaged(staff, s), [SeverityGate(Triaged(staff, s))], a, 0, 97,
                        [Triage, Scatter, Synthesize])
  {
    hide Direct, DirectSweep, Clamp;
    var g := Runbook(staff);
    assert [] + [Triage] == [Triage] && [Triage] + [Scatter] + [Synthesize] == [Triage, Scatter, Synthesize];
    if staff.triage.None? {
      DirectCrash(g, s, Triage, a, 0, 100, []);
    } else {
      var s1 := Triaged(staff, s);
      DirectStep(g, s, Triage, a, 0, 100, [], s1, Scatter);
      DirectStep(g, s1, Scatter, a, 0, 99, [Triage], s1, Synthesize);
      if staff.synthesizes {
        DirectStep(g, s1, Synthesize, a, 0, 98, [Triage] + [Scatter], s1, SeverityGate(s1));
      } else {
        DirectCrash(g, s1, Synthesize, a, 0, 98, [Triage] + [Scatter]);
      }
    }
  }

  /** MAIN RESULT, for every model text, every answer, every failing agent and every state the run may start in. */
  lemma NoUnapprovedCriticalMitigation(staff: Staff, s: State, a: nat -> string)
    ensures SafeRun(staff, s, a, Responded(staff, s, a))
  {
    hide Direct, DirectSweep, Clamp, Retry.Delivers;
    OpenUp(staff, s, a);
    if staff.triage.Some? && staff.synthesizes {
      var s1, log := Triaged(staff, s), [Triage, Scatter, Synthesize];
      if IsCritical(staff) {
        var s2 := s1.(approved := Some(a(0) == "yes"));
        DirectStep(Runbook(staff), s1, PageHuman, a, 0, 97, log, s2, Mitigate);
        CloseOut(staff, s2, a, 1, 96, log + [PageHuman]);
        assert log + [PageHuman] + [Mitigate] + [Postmortem] == Path(true);
        assert log + [PageHuman] + [Mitigate] == Path(true)[..5];
      } else {
        CloseOut(staff, s1, a, 0, 97, log);
        assert log + [Mitigate] + [Postmortem] == Path(false);
        assert log + [Mitigate] == Path(false)[..4];
      }
    }
  }

  /** The driver of `main`, which resumes at most once, finishes every run. */
  lemma OneResumeIsEnough(staff: Staff, s: State, a: nat -> string)
    ensures SameFinish(Responded(staff, s, a), Drive(Runbook(staff), Call(Runbook(staff), s, None, []), a, 0, 1))
  {
    hide Direct, Drive, Call, Solo;
    NoUnapprovedCriticalMitigation(staff, s, a);
    RunbookIsSequential(staff);
    SequentialIsSolo(Runbook(staff), s, Runbook(staff).start, a, 0, 100);
    PauseResumeRefinesDirect(Runbook(staff), s, a, 100, 1);
  }
}
