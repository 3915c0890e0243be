/** Two ways of asking a human: a gate before a payment, and an escalation when triage is not confident. */
module HumanInLoop {
  import opened Prelude
  import opened Engine
  import opened PauseResume

  // ----- pattern A: the approval gate -----

  datatype GateStage = Triage | Draft | Approve | Execute | END

  datatype Release = Executed | Cancelled

  datatype GateState = GateState(approved: bool, response: Option<string>, outcome: Option<Release>)

  datatype GateUpdate = Prose | Approval(approved: bool, response: string) | Outcome(outcome: Release)

  const YES := "yes"

  /** Whether the triage and the disbursement agent return or raise. */
  datatype Staff = Staff(triages: bool, drafts: bool)

  function GateBody(staff: Staff, n: GateStage, s: GateState, answers: seq<string>): Attempt<GateUpdate, GateStage> {
    match n
    case Triage => if staff.triages then Done(Prose, None) else Crash
    case Draft => if staff.drafts then Done(Prose, None) else Crash
    case Approve => if answers == [] then Ask else Done(Approval(answers[0] == YES, answers[0]), None)
    case Execute => Done(Outcome(if s.approved then Executed else Cancelled), None)
    case END => Crash
  }

  function GateCommit(s: GateState, n: GateStage, u: GateUpdate): GateState {
    match u
    case Prose => s
    case Approval(approved, response) => s.(approved := approved, response := Some(response))
    case Outcome(outcome) => s.(outcome := Some(outcome))
  }

  function GateNext(n: GateStage, s: GateState): seq<GateStage> {
    match n
    case Triage => [Draft]
    case Draft => [Approve]
    case Approve => [Execute]
    case Execute => [END]
    case END => []
  }

  function ApprovalGraph(staff: Staff): Graph<GateState, GateStage, GateUpdate, string> {
    Graph([Triage], END, (n, s, answers) => GateBody(staff, n, s, answers), GateCommit, GateNext, 100)
  }

  /** The graph pauses exactly once, if its agents let it get there, and funds move exactly when the answer is "yes",
    * whatever the state claimed about approval beforehand. Without a draft nobody is asked and nothing is released.
    */
  lemma ReleasedIffApproved(staff: Staff, s: GateState, a: nat -> string)
    ensures var g := ApprovalGraph(staff);
            && Call(g, s, None, [])
               == (if !staff.triages then Halted(s, Drained, [Triage])
                   else if !staff.drafts then Halted(s, Drained, [Triage, Draft])
                   else Paused(s, Approve, [Triage, Draft, Approve]))
            && Call(g, s, Some((Approve, a(0))), [Triage, Draft])
               == Halted(GateState(a(0) == "yes", Some(a(0)), Some(if a(0) == "yes" then Executed else Cancelled)),
                         AtEnd, [Triage, Draft, Approve, Execute])
  {
    hide Run, Sweep;
    ReachesGate(staff, s);
    var g, asked := ApprovalGraph(staff), Some((Approve, a(0)));
    var s1 := s.(approved := a(0) == "yes", response := Some(a(0)));
    RunStep(g, s, Approve, asked, 100, [Triage, Draft], s1, Execute);
    RunStep(g, s1, Execute, None, 99, [Triage, Draft] + [Approve],
            s1.(outcome := Some(if a(0) == "yes" then Executed else Cancelled)), END);
    assert [Triage, Draft] + [Approve] + [Execute] == [Triage, Draft, Approve, Execute];
  }

  lemma ReachesGate(staff: Staff, s: GateState)
    ensures Call(ApprovalGraph(staff), s, None, [])
         == if !staff.triages then Halted(s, Drained, [Triage])
            else if !staff.drafts then Halted(s, Drained, [Triage, Draft])
            else Paused(s, Approve, [Triage, Draft, Approve])
  {
    hide Run, Sweep;
    var g := ApprovalGraph(staff);
    assert [] + [Triage] == [Triage] && [Triage] + [Draft] == [Triage, Draft];
    if !staff.triages {
      RunCrash(g, s, Triage, None, 100, []);
    } else {
      RunStep(g, s, Triage, None, 100, [], s, Draft);
      if !staff.drafts {
        RunCrash(g, s, Draft, None, 99, [Triage]);
      } else {
        RunStep(g, s, Draft, None, 99, [Triage], s, Approve);
        AskStep(g, s, Approve, 98, [Triage, Draft]);
        assert [Triage, Draft] + [Approve] == [Triage, Draft, Approve];
      }
    }
  }

  // ----- pattern B: human as a tool -----

  datatype DeskStage = SmartTriage | Route | Finish

  datatype DeskState = DeskState(category: Option<string>, final: Option<string>)

  datatype DeskUpdate = Category(category: string) | Final(category: string)

  predicate Confident(word: string) { word == "refund" || word == "payout" || word == "chargeback" }

  /** `word` is the first lower-cased word of the model's reply, "escalate" if there is none. The node has no
    * memory: when it is resumed it asks its model again, so `word` may differ from one attempt to the next.
    */
  function DeskBody(word: string, n: DeskStage, s: DeskState, answers: seq<string>): Attempt<DeskUpdate, DeskStage> {
    match n
    case SmartTriage =>
      if Confident(word) then Done(Category(word), None)
      else if answers == [] then Ask
      else Done(Category(answers[0]), None)
    case Route => Done(Final(if s.category.Some? then s.category.value else "dismiss"), None)
    case Finish => Crash
  }

  function DeskCommit(s: DeskState, n: DeskStage, u: DeskUpdate): DeskState {
    match u
    case Category(category) => s.(category := Some(category))
    case Final(category) => s.(final := Some(category))
  }

  function DeskNext(n: DeskStage, s: DeskState): seq<DeskStage> {
    match n
    case SmartTriage => [Route]
    case Route => [Finish]
    case Finish => []
  }

  /** The escalation graph while the model's first word is `word`. */
  function Desk(word: string): Graph<DeskState, DeskStage, DeskUpdate, string> {
    Graph([SmartTriage], Finish, (n, s, answers) => DeskBody(word, n, s, answers), DeskCommit, DeskNext, 100)
  }

  /** The three queues a payment can be routed to. */
  ghost predicate Queue(word: string) { word == "refund" || word == "payout" || word == "chargeback" }

  function Routed(category: string): Result<DeskState, DeskStage> {
    Halted(DeskState(Some(category), Some(category)), AtEnd, [SmartTriage, Route])
  }

  lemma TriageThenRoute(word: string, s: DeskState, resume: Option<(DeskStage, string)>, category: string)
    requires AttemptNode(Desk(word), s, SmartTriage, resume) == Done(Category(category), None)
    ensures Run(Desk(word), s, [SmartTriage], resume, 100, []) == Routed(category)
  {
    hide Run, Sweep, Confident;
    var s1 := s.(category := Some(category));
    RunStep(Desk(word), s, SmartTriage, resume, 100, [], s1, Route);
    RunStep(Desk(word), s1, Route, None, 99, [] + [SmartTriage], s1.(final := Some(category)), Finish);
    assert [] + [SmartTriage] + [Route] == [SmartTriage, Route];
  }

  /** MAIN RESULT. The graph pauses exactly when the first reply is not a category; and after the human has answered
    * `x`, the payment is routed to `x` only if the second reply is not a category either.
    */
  lemma RestartAsksAgain(first: string, second: string, s: DeskState, x: string)
    ensures var r := Call(Desk(first), s, None, []);
            && (Queue(first) ==> r == Routed(first))
            && (!Queue(first) ==>
                  && r == Paused(s, SmartTriage, [SmartTriage])
                  && Call(Desk(second), r.state, Some((r.at, x)), Completed(r))
                     == Routed(if Queue(second) then second else x))
  {
    hide Run, Sweep;
    if Queue(first) {
      TriageThenRoute(first, s, None, first);
    } else {
      AskStep(Desk(first), s, SmartTriage, 100, []);
      assert [] + [SmartTriage] == [SmartTriage] && [SmartTriage][..0] == [];
      TriageThenRoute(second, s, Some((SmartTriage, x)), if Queue(second) then second else x);
    }
  }

  /** With a model that repeats itself the human's answer always decides. */
  lemma RepeatableModelDefersToHuman(word: string, s: DeskState, a: nat -> string)
    requires !Queue(word)
    ensures Drive(Desk(word), Call(Desk(word), s, None, []), a, 0, 1) == Driven(Routed(a(0)), 1)
  {
    RestartAsksAgain(word, word, s, a(0));
    hide Call, Routed;
  }

  /** With one that does not, the human can be overruled: asked, answered `x`, and routed to any of the categories. */
  lemma HumanCanBeOverruled(s: DeskState, x: string, second: string)
    requires Queue(second)
    ensures var r := Call(Desk("unsure"), s, None, []);
            && r.Paused?
            && Call(Desk(second), r.state, Some((r.at, x)), Completed(r)) == Routed(second)
  {
    RestartAsksAgain("unsure", second, s, x);
    hide Run, Sweep, Routed;
  }
}
