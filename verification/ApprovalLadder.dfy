/** Concession approval with risk-tiered gates: three human gates behind one score. */
module ApprovalLadder {
  import opened Prelude
  import opened Engine
  import opened PauseResume
  import Retry = BoundedRetry

  datatype Stage = Summarize | Assess | AutoApprove | Manager | Billing | Director | Record | END

  datatype Tier = AutoTier | ManagerTier | BillingTier | DirectorTier

  const YES := "yes"

  /** The titles that can stand in `approvals`; `Auto` is the low-cost tier's placeholder. */
  datatype Role = SupportManager | BillingLead | SupportDirector | Auto

  datatype Status = Unset | Pending | Denied

  datatype Verdict = Approved | Refused

  /** `filed` is the status handed to the case recorder. */
  datatype State = State(score: real, approvals: seq<Role>, status: Status, filed: Option<Verdict>)

  datatype Update = Prose | Decided(approvals: seq<Role>, status: Status) | Filed(verdict: Verdict)

  /** The agents, unconstrained: whether the two that write prose return at all, and the recorder's calls. */
  datatype Staff = Staff(summarizes: bool, assesses: bool, recorder: nat -> Retry.Attempt<string>)

  function Initial(score: real): State { State(score, [], Unset, None) }

  function RiskTier(score: real): Tier {
    if score < 25.0 then AutoTier
    else if score < 50.0 then ManagerTier
    else if score < 75.0 then BillingTier
    else DirectorTier
  }

  function RecordDecision(s: State, role: Role, decision: string): Update {
    if decision == YES then Decided(s.approvals + [role], Pending) else Decided(s.approvals, Denied)
  }

  function Final(s: State): Verdict { if s.status != Denied then Approved else Refused }

  function Gate(s: State, role: Role, answers: seq<string>): Attempt<Update, Stage> {
    if answers == [] then Ask else Done(RecordDecision(s, role, answers[0]), None)
  }

  function Body(staff: Staff, n: Stage, s: State, answers: seq<string>): Attempt<Update, Stage> {
    match n
    case Summarize => if staff.summarizes then Done(Prose, None) else Crash
    case Assess => if staff.assesses then Done(Prose, None) else Crash
    case AutoApprove => Done(Decided([Auto], Pending), None)
    case Manager => Gate(s, SupportManager, answers)
    case Billing => Gate(s, BillingLead, answers)
    case Director => Gate(s, SupportDirector, answers)
    case Record => if Retry.Delivers(staff.recorder) then Done(Filed(Final(s)), None) else Crash
    case END => Crash
  }

  function Commit(s: State, n: Stage, u: Update): State {
    match u
    case Prose => s
    case Decided(approvals, status) => s.(approvals := approvals, status := status)
    case Filed(verdict) => s.(filed := Some(verdict))
  }

  function GateAfterManager(s: State): Stage {
    if s.status == Denied then Record else if s.score >= 50.0 then Billing else Record
  }

  function GateAfterBilling(s: State): Stage {
    if s.status == Denied then Record else if s.score >= 75.0 then Director else Record
  }

  function Next(n: Stage, s: State): seq<Stage> {
    match n
    case Summarize => [Assess]
    case Assess => [if RiskTier(s.score) == AutoTier then AutoApprove else Manager]
    case AutoApprove => [Record]
    case Manager => [GateAfterManager(s)]
    case Billing => [GateAfterBilling(s)]
    case Director => [Record]
    case Record => [END]
    case END => []
  }

  function Review(staff: Staff): Graph<State, Stage, Update, string> {
    Graph([Summarize], END, (n, s, answers) => Body(staff, n, s, answers), Commit, Next, 100)
  }

  /** The approvals a score calls for, in the order they are asked for. */
  function Ladder(score: real): seq<Role> {
    if score < 25.0 then []
    else if score < 50.0 then [SupportManager]
    else if score < 75.0 then [SupportManager, BillingLead]
    else [SupportManager, BillingLead, SupportDirector]
  }

  function LadderStages(score: real): seq<Stage> {
    if score < 25.0 then []
    else if score < 50.0 then [Manager]
    else if score < 75.0 then [Manager, Billing]
    else [Manager, Billing, Director]
  }

  /** `p` is the longest prefix of `ladder` whose answers are all yes. */
  ghost predicate LongestYesPrefix(p: seq<Role>, ladder: seq<Role>, a: nat -> string) {
    && p <= ladder
    && (forall j: nat | j < |p| :: a(j) == "yes")
    && (|p| < |ladder| ==> a(|p|) != "yes")
  }

  function Asked(score: real, approvals: seq<Role>): nat {
    if |approvals| < |Ladder(score)| then |approvals| + 1 else |Ladder(score)|
  }

  /** What an escalated review must look like when it is over. */
  ghost predicate Climbed(score: real, a: nat -> string, delivers: bool, t: Trace<State, Stage>) {
    && t.why == (if delivers then AtEnd else Drained) && t.state.score == score
    && LongestYesPrefix(t.state.approvals, Ladder(score), a)
    && t.used == Asked(score, t.state.approvals)
    && t.state.filed == (if !delivers then None
                         else Some(if t.state.approvals == Ladder(score) then Approved else Refused))
    && t.used <= |LadderStages(score)|
    && t.log == [Summarize, Assess] + LadderStages(score)[..t.used] + [Record]
  }

  lemma ReviewIsSequential(staff: Staff)
    ensures Sequential(Review(staff)) && AsksOnce(Review(staff))
  {
  }

  function After(s: State, role: Role, answer: string): State {
    if answer == YES then s.(approvals := s.approvals + [role], status := Pending) else s.(status := Denied)
  }

  function GateStage(role: Role): Stage {
    if role == SupportManager then Manager else if role == BillingLead then Billing else Director
  }

  /** One gate: the answer is recorded and the gate's router picks the next stage. */
  lemma GateStep(staff: Staff, s: State, role: Role, a: nat -> string, i: nat, left: nat, log: seq<Stage>, m: Stage)
    requires 0 < left && role in [SupportManager, BillingLead, SupportDirector] && m != END
    requires Next(GateStage(role), After(s, role, a(i))) == [m]
    ensures Direct(Review(staff), s, [GateStage(role)], a, i, left, log)
         == Direct(Review(staff), After(s, role, a(i)), [m], a, i + 1, left - 1, log + [GateStage(role)])
  {
    DirectStep(Review(staff), s, GateStage(role), a, i, left, log, After(s, role, a(i)), m);
  }

  /** The end of every review that gets as far as its recorder. */
  function Recorded(staff: Staff, s: State, i: nat, log: seq<Stage>): Trace<State, Stage> {
    if Retry.Delivers(staff.recorder) then Trace(s.(filed := Some(Final(s))), AtEnd, i, log + [Record])
    else Trace(s, Drained, i, log + [Record])
  }

  lemma FileStep(staff: Staff, s: State, a: nat -> string, i: nat, left: nat, log: seq<Stage>)
    requires 0 < left
    ensures Direct(Review(staff), s, [Record], a, i, left, log) == Recorded(staff, s, i, log)
  {
    var s' := s.(filed := Some(Final(s)));
    if Retry.Delivers(staff.recorder) {
      DirectStep(Review(staff), s, Record, a, i, left, log, s', END);
    } else {
      DirectCrash(Review(staff), s, Record, a, i, left, log);
    }
  }

  function AfterManager(score: real, a: nat -> string): State { After(Initial(score), SupportManager, a(0)) }

  function AfterBilling(score: real, a: nat -> string): State { After(AfterManager(score, a), BillingLead, a(1)) }

  /** The director is asked: the last gate there is. */
  lemma ClimbFromDirector(staff: Staff, score: real, a: nat -> string, left: nat)
    requires score >= 75.0 && left >= 2 && a(0) == YES && a(1) == YES
    ensures
      Climbed(score, a, Retry.Delivers(staff.recorder),
              Direct(Review(staff), AfterBilling(score, a), [Director], a, 2, left,
                     [Summarize, Assess, Manager, Billing]))
  {
    hide Direct, Review, Retry.Delivers;
    var s2, log := AfterBilling(score, a), [Summarize, Assess, Manager, Billing];
    GateStep(staff, s2, SupportDirector, a, 2, left, log, Record);
    FileStep(staff, After(s2, SupportDirector, a(2)), a, 3, left - 1, log + [Director]);
  }

  /** The billing lead is asked: one or two more gates. */
  lemma ClimbFromBilling(staff: Staff, score: real, a: nat -> string, left: nat)
    requires score >= 50.0 && left >= 3 && a(0) == YES
    ensures
      Climbed(score, a, Retry.Delivers(staff.recorder),
              Direct(Review(staff), AfterManager(score, a), [Billing], a, 1, left, [Summarize, Assess, Manager]))
  {
    hide Direct, Review, Retry.Delivers;
    var s2, log := AfterBilling(score, a), [Summarize, Assess, Manager];
    GateStep(staff, AfterManager(score, a), BillingLead, a, 1, left, log, GateAfterBilling(s2));
    assert log + [Billing] == [Summarize, Assess, Manager, Billing];
    if GateAfterBilling(s2) == Director {
      ClimbFromDirector(staff, score, a, left - 1);
    } else {
      FileStep(staff, s2, a, 2, left - 1, log + [Billing]);
    }
  }

  /** From the manager's gate on: one gate per required tier until somebody says no. */
  lemma ClimbFromManager(staff: Staff, score: real, a: nat -> string, left: nat)
    requires score >= 25.0 && left >= 4
    ensures
      Climbed(score, a, Retry.Delivers(staff.recorder),
              Direct(Review(staff), Initial(score), [Manager], a, 0, left, [Summarize, Assess]))
  {
    hide Direct, Review;
    var s1, log := AfterManager(score, a), [Summarize, Assess];
    GateStep(staff, Initial(score), SupportManager, a, 0, left, log, GateAfterManager(s1));
    assert log + [Manager] == [Summarize, Assess, Manager];
    if GateAfterManager(s1) == Billing {
      ClimbFromBilling(staff, score, a, left - 1);
    } else {
      FileStep(staff, s1, a, 1, left - 1, log + [Manager]);
    }
  }

  /** The whole review, every question answered on the spot. */
  function Reviewed(staff: Staff, score: real, a: nat -> string): Trace<State, Stage> {
    Direct(Review(staff), Initial(score), Review(staff).start, a, 0, Review(staff).cap, [])
  }

  lemma FirstTwoStages(staff: Staff, score: real, a: nat -> string)
    ensures Reviewed(staff, score, a)
         == if !staff.summarizes then Trace(Initial(score), Drained, 0, [Summarize])
            else if !staff.assesses then Trace(Initial(score), Drained, 0, [Summarize, Assess])
            else Direct(Review(staff), Initial(score), Next(Assess, Initial(score)), a, 0, 98, [Summarize, Assess])
  {
    var g, s := Review(staff), Initial(score);
    assert [] + [Summarize] == [Summarize] && [Summarize] + [Assess] == [Summarize, Assess];
    if !staff.summarizes {
      DirectCrash(g, s, Summarize, a, 0, 100, []);
    } else {
      DirectStep(g, s, Summarize, a, 0, 100, [], s, Assess);
      if !staff.assesses {
        DirectCrash(g, s, Assess, a, 0, 99, [Summarize]);
      } else {
        DirectStep(g, s, Assess, a, 0, 99, [Summarize], s, Next(Assess, s)[0]);
      }
    }
  }

  /** A review that loses an agent before the first gate decides nothing and asks nobody. Otherwise cheap concessions
    * are approved with no question, and every other one climbs its ladder; if the recorder fails, nothing is filed.
    */
  lemma LadderTheorem(staff: Staff, score: real, a: nat -> string)
    ensures !staff.summarizes || !staff.assesses ==>
              Reviewed(staff, score, a)
              == Trace(State(score, [], Unset, None), Drained, 0,
                       if staff.summarizes then [Summarize, Assess] else [Summarize])
    ensures staff.summarizes && staff.assesses && score < 25.0 ==>
              Reviewed(staff, score, a)
              == (if Retry.Delivers(staff.recorder)
                  then Trace(State(score, [Auto], Pending, Some(Approved)), AtEnd, 0,
                             [Summarize, Assess, AutoApprove, Record])
                  else Trace(State(score, [Auto], Pending, None), Drained, 0,
                             [Summarize, Assess, AutoApprove, Record]))
    ensures staff.summarizes && staff.assesses && score >= 25.0 ==>
              Climbed(score, a, Retry.Delivers(staff.recorder), Reviewed(staff, score, a))
  {
    hide Direct;
    FirstTwoStages(staff, score, a);
    if staff.summarizes && staff.assesses {
      if score < 25.0 {
        var s, log := Initial(score), [Summarize, Assess];
        var s' := s.(approvals := [Auto], status := Pending);
        DirectStep(Review(staff), s, AutoApprove, a, 0, 98, log, s', Record);
        assert log + [AutoApprove] + [Record] == [Summarize, Assess, AutoApprove, Record];
        FileStep(staff, s', a, 0, 97, log + [AutoApprove]);
      } else {
        ClimbFromManager(staff, score, a, 98);
      }
    }
  }

  /** The router and the two gates were written separately; they agree on how many approvals a score needs. */
  lemma RouterAgreesWithGates(score: real, s: State)
    requires s.score == score && s.status != Denied
    ensures (RiskTier(score) == AutoTier <==> Next(Assess, s) == [AutoApprove])
    ensures (RiskTier(score) == BillingTier || RiskTier(score) == DirectorTier <==> GateAfterManager(s) == Billing)
    ensures (RiskTier(score) == DirectorTier <==> GateAfterBilling(s) == Director)
    ensures |Ladder(score)| == match RiskTier(score)
                               case AutoTier => 0 case ManagerTier => 1 case BillingTier => 2 case DirectorTier => 3
  {
  }

  /** The interrupting driver ends where the review does, and three resumes are always enough. */
  lemma DriverClimbs(staff: Staff, score: real, a: nat -> string, resumes: nat)
    requires 3 <= resumes
    ensures
      SameFinish(Reviewed(staff, score, a),
                 Drive(Review(staff), Call(Review(staff), Initial(score), None, []), a, 0, resumes))
    ensures Reviewed(staff, score, a).used <= 3 && Reviewed(staff, score, a).why != Exhausted
  {
    hide Direct, Drive, Call, Solo;
    LadderTheorem(staff, score, a);
    ReviewIsSequential(staff);
    SequentialIsSolo(Review(staff), Initial(score), Review(staff).start, a, 0, 100);
    PauseResumeRefinesDirect(Review(staff), Initial(score), a, 100, resumes);
  }

  /** `_drive`: keep answering while the graph is interrupted; missing answers count as yes. */
  method DriveReview(staff: Staff, score: real, answers: seq<string>)
    returns (result: Result<State, Stage>, used: nat)
    ensures var t := Reviewed(staff, score, Supply(answers, "yes"));
            result == Halted(t.state, t.why, t.log) && used == t.used && t.why != Exhausted
  {
    hide Call, Direct;
    ghost var a := Supply(answers, YES);
    ghost var finish := Drive(Review(staff), Call(Review(staff), Initial(score), None, []), a, 0, 3);
    DriverClimbs(staff, score, a, 3);
    result := Execute(Review(staff), Initial(score), None, []);
    used := 0;
    while result.Paused?
      invariant used <= 3 && Drive(Review(staff), result, a, used, 3 - used) == finish
      decreases 3 - used
    {
      var answer := if used < |answers| then answers[used] else YES;
      result := Execute(Review(staff), result.state, Some((result.at, answer)), Completed(result));
      used := used + 1;
    }
  }
}
