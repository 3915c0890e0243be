/** Change requests: an intake form with one question per node, and a two-stage approval. */
module ChangeRequest {
  import opened Prelude
  import opened Engine
  import opened PauseResume

  // ----- the intake form -----

  datatype Question = Service | Action | Confirm | Complete | END

  datatype Status = Created | Cancelled

  datatype Form = Form(service: Option<string>, action: Option<string>, confirmed: Option<bool>,
                       status: Option<Status>, target: Option<string>)

  datatype Entry =
    | TheService(s: string)
    | TheAction(s: string)
    | Confirmed(yes: bool)
    | Ticket(status: Status, target: Option<string>)

  const CONFIRM := "confirm"

  function FormBody(n: Question, f: Form, answers: seq<string>): Attempt<Entry, Question> {
    match n
    case Service => if answers == [] then Ask else Done(TheService(answers[0]), None)
    case Action => if answers == [] then Ask else Done(TheAction(answers[0]), None)
    case Confirm => if answers == [] then Ask else Done(Confirmed(answers[0] == CONFIRM), None)
    case Complete =>
      if f.confirmed == Some(true) then Done(Ticket(Created, f.service), None) else Done(Ticket(Cancelled, None), None)
    case END => Crash
  }

  /** A cancelled ticket carries no target, so the update leaves that key alone. */
  function FormCommit(f: Form, n: Question, e: Entry): Form {
    match e
    case TheService(s) => f.(service := Some(s))
    case TheAction(s) => f.(action := Some(s))
    case Confirmed(yes) => f.(confirmed := Some(yes))
    case Ticket(status, target) => f.(status := Some(status), target := if target.Some? then target else f.target)
  }

  function FormNext(n: Question, f: Form): seq<Question> {
    match n
    case Service => [Action]
    case Action => [Confirm]
    case Confirm => [Complete]
    case Complete => [END]
    case END => []
  }

  function Intake(): Graph<Form, Question, Entry, string> {
    Graph([Service], END, FormBody, FormCommit, FormNext, 100)
  }

  function Questions(): seq<Question> { [Service, Action, Confirm] }

  /** The form f once the first k questions are answered. */
  function Filled(f: Form, a: nat -> string, k: nat): Form {
    f.(service := if k >= 1 then Some(a(0)) else f.service,
       action := if k >= 2 then Some(a(1)) else f.action,
       confirmed := if k >= 3 then Some(a(2) == "confirm") else f.confirmed)
  }

  function Finished(f: Form, a: nat -> string): Form {
    if a(2) == "confirm" then Filled(f, a, 3).(status := Some(Created), target := Some(a(0)))
    else Filled(f, a, 3).(status := Some(Cancelled))
  }

  /** Where the form stands after k answers. */
  function Standing(f: Form, a: nat -> string, k: nat): Result<Form, Question> {
    if k < 3 then Paused(Filled(f, a, k), Questions()[k], Questions()[..k + 1])
    else Halted(Finished(f, a), AtEnd, Questions() + [Complete])
  }

  lemma FormOpens(f: Form, a: nat -> string)
    ensures Call(Intake(), f, None, []) == Standing(f, a, 0)
  {
    assert [] + [Service] == [Service] == Questions()[..1];
    AskStep(Intake(), f, Service, 100, []);
    hide Run;
  }

  lemma FormAdvances(f: Form, a: nat -> string, k: nat)
    requires k < 3
    ensures Call(Intake(), Filled(f, a, k), Some((Questions()[k], a(k))), Questions()[..k]) == Standing(f, a, k + 1)
  {
    hide Run, Sweep;
    var g, q, done := Intake(), Questions()[k], Questions()[..k];
    var q' := [Action, Confirm, Complete][k];
    assert done + [q] == Questions()[..k + 1];
    RunStep(g, Filled(f, a, k), q, Some((q, a(k))), 100, done, Filled(f, a, k + 1), q');
    if k < 2 {
      assert Questions()[..k + 1] + [q'] == Questions()[..k + 2];
      AskStep(g, Filled(f, a, k + 1), q', 99, Questions()[..k + 1]);
    } else {
      assert Questions()[..3] == Questions();
      RunStep(g, Filled(f, a, 3), Complete, None, 99, Questions(), Finished(f, a), END);
    }
  }

  lemma {:induction false} FormFrom(f: Form, a: nat -> string, k: nat, resumes: nat)
    requires k <= 3
    ensures var stop := if k + resumes < 3 then k + resumes else 3;
            Drive(Intake(), Standing(f, a, k), a, k, resumes) == Driven(Standing(f, a, stop), stop)
    decreases resumes
  {
    hide Call;
    if k < 3 && resumes > 0 {
      assert Questions()[..k + 1][..k] == Questions()[..k];
      FormAdvances(f, a, k);
      FormFrom(f, a, k + 1, resumes - 1);
    }
  }

  /** MAIN RESULT: responses fill the fields in order, one each, whatever the form held; it stays paused at the first
    * question left unanswered, and responses beyond the third are not used.
    */
  lemma FormTakesWhatItIsGiven(f: Form, responses: seq<string>, default: string)
    ensures var a, stop := Supply(responses, default), if |responses| < 3 then |responses| else 3;
            Drive(Intake(), Call(Intake(), f, None, []), a, 0, |responses|) == Driven(Standing(f, a, stop), stop)
  {
    var a := Supply(responses, default);
    FormOpens(f, a);
    FormFrom(f, a, 0, |responses|);
  }

  // ----- the two-stage approval -----

  datatype Stage = Create | Sre | Manager | Finalize | Over

  datatype Decision = Pending | Rejected | Approved

  datatype Request = Request(status: Decision, sre: Option<bool>, manager: Option<bool>, final: Option<Decision>)

  datatype Update = Opened | Reviewed(sre: bool) | SreSaidNo | Signed(yes: bool) | Closed(status: Decision)

  const APPROVE := "approve"

  /** The manager is only asked about what the first review let through. */
  function StageBody(n: Stage, r: Request, answers: seq<string>): Attempt<Update, Stage> {
    match n
    case Create => Done(Opened, None)
    case Sre => if answers == [] then Ask else Done(Reviewed(answers[0] == APPROVE), None)
    case Manager =>
      if r.sre != Some(true) then Done(SreSaidNo, None)
      else if answers == [] then Ask
      else Done(Signed(answers[0] == APPROVE), None)
    case Finalize => Done(Closed(r.status), None)
    case Over => Crash
  }

  function StageCommit(r: Request, n: Stage, u: Update): Request {
    match u
    case Opened => r.(status := Pending)
    case Reviewed(sre) => r.(sre := Some(sre))
    case SreSaidNo => r.(status := Rejected)
    case Signed(yes) => r.(manager := Some(yes), status := if yes then Approved else Rejected)
    case Closed(status) => r.(final := Some(status))
  }

  function StageNext(n: Stage, r: Request): seq<Stage> {
    match n
    case Create => [Sre]
    case Sre => [Manager]
    case Manager => [Finalize]
    case Finalize => [Over]
    case Over => []
  }

  function Approval(): Graph<Request, Stage, Update, string> {
    Graph([Create], Over, StageBody, StageCommit, StageNext, 100)
  }

  /** Two questions if the first answer approves, otherwise one; approved iff both answers do. */
  ghost predicate ProperlyApproved(a: nat -> string, t: Trace<Request, Stage>) {
    && t.why == AtEnd && t.log == [Create, Sre, Manager, Finalize]
    && t.used == (if a(0) == "approve" then 2 else 1)
    && t.state.final == Some(if a(0) == "approve" && a(1) == "approve" then Approved else Rejected)
  }

  function Processed(r: Request, a: nat -> string): Trace<Request, Stage> {
    Direct(Approval(), r, [Create], a, 0, 100, [])
  }

  lemma TwoStages(r: Request, a: nat -> string)
    ensures ProperlyApproved(a, Processed(r, a))
  {
    hide Direct, DirectSweep;
    var g := Approval();
    var r0 := r.(status := Pending);
    var r1 := r0.(sre := Some(a(0) == "approve"));
    var yes := a(1) == "approve";
    var r2 := if a(0) == "approve" then r1.(manager := Some(yes), status := if yes then Approved else Rejected)
              else r1.(status := Rejected);
    var used := if a(0) == "approve" then 2 else 1;
    DirectStep(g, r, Create, a, 0, 100, [], r0, Sre);
    DirectStep(g, r0, Sre, a, 0, 99, [] + [Create], r1, Manager);
    DirectStep(g, r1, Manager, a, 1, 98, [] + [Create] + [Sre], r2, Finalize);
    DirectStep(g, r2, Finalize, a, used, 97, [] + [Create] + [Sre] + [Manager], r2.(final := Some(r2.status)), Over);
    assert [] + [Create] + [Sre] + [Manager] + [Finalize] == [Create, Sre, Manager, Finalize];
  }

  /** MAIN RESULT: the driver with two prepared answers always finishes, and ends as the two answers demand. */
  lemma DriverApproves(r: Request, a: nat -> string)
    ensures SameFinish(Processed(r, a), Drive(Approval(), Call(Approval(), r, None, []), a, 0, 2))
    ensures ProperlyApproved(a, Processed(r, a))
  {
    TwoStages(r, a);
    assert Sequential(Approval()) && AsksOnce(Approval());
    SequentialIsSolo(Approval(), r, [Create], a, 0, 100);
    PauseResumeRefinesDirect(Approval(), r, a, 100, 2);
  }
}
