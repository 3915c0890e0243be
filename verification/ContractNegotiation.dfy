/** Contract review: three parallel reviewers, a capped negotiation loop and a sign-off. */
module ContractNegotiation {
  import opened Prelude
  import opened Engine
  import opened PauseResume
  import Retry = BoundedRetry

  datatype Stage = Parse | Scatter | Synthesize | Negotiate | SignOff | END

  datatype Perspective = Legal | Governance | Compliance

  const WALK := "WALK"
  const RESOLVED := "RESOLVED"
  const ROUND_CAP := 3

  /** What a reviewer's model said: the text, and the bulleted lines found in it. */
  datatype Reply = Reply(text: string, bullets: seq<string>)

  datatype Finding = Finding(perspective: Perspective, blockers: seq<string>, changes: seq<string>)

  /** The outside world, unconstrained: `reply` is None when that reviewer fails, `sendId` is the identifier the
    * runtime draws for a Send of the given round, and `signOff` are the calls of the sign-off agent.
    */
  datatype World = World(reply: (nat, Perspective) -> Option<Reply>, sendId: (nat, Perspective) -> int,
                         signOff: nat -> Retry.Attempt<string>)

  datatype Slot = Slot(id: int, finding: Finding)

  datatype Outcome = Signed | Rejected | Abandoned

  /** `slots` are the Send results in the state, in insertion order. */
  datatype State = State(text: string, slots: seq<Slot>, open: seq<string>, resolved: seq<string>,
                         rounds: nat, walked: bool, outcome: Option<Outcome>)

  datatype Update =
    | Prose
    | Sends
    | Collected(blockers: seq<string>)
    | Walk
    | Resolve
    | Redline(text: string)
    | Decide(outcome: Outcome)

  function Initial(text: string): State { State(text, [], [], [], 0, false, None) }

  // ----- nodes -----

  /** First half of the bullets are blockers, at least one; without bullets the whole text is one. */
  function ReviewOne(p: Perspective, reply: Reply): (f: Finding)
    ensures f.blockers != []
  {
    var half := if |reply.bullets| / 2 > 1 then |reply.bullets| / 2 else 1;
    if reply.bullets == [] then Finding(p, [if reply.text != "" then reply.text else "(no findings)"], [])
    else Finding(p, reply.bullets[..half], reply.bullets[half..])
  }

  /** A reviewer's bullets are split in the middle, the odd one being a change; a lone bullet, or a text without
    * bullets, is a blocker.
    */
  lemma ReviewSplits(p: Perspective, reply: Reply)
    ensures
      var f := ReviewOne(p, reply);
      && f.perspective == p
      && (reply.bullets != [] ==> f.blockers + f.changes == reply.bullets)
      && (|reply.bullets| >= 2 ==> |f.blockers| <= |f.changes| <= |f.blockers| + 1)
      && (reply.bullets == [] ==>
            f.changes == [] && f.blockers == if reply.text == "" then ["(no findings)"] else [reply.text])
  {
    var f, bs := ReviewOne(p, reply), reply.bullets;
    if bs != [] { assert bs == bs[..|f.blockers|] + bs[|f.blockers|..]; }
  }

  /** Assignment to a dictionary key: overwrite in place, or append. */
  function Put(slots: seq<Slot>, id: int, f: Finding): (r: seq<Slot>)
    ensures r != []
  {
    if slots == [] then [Slot(id, f)]
    else if slots[0].id == id then [Slot(id, f)] + slots[1..]
    else [slots[0]] + Put(slots[1..], id, f)
  }

  /** The runtime stores the result of every Send that succeeded under the Send's identifier. */
  function Land(w: World, round: nat, p: Perspective, slots: seq<Slot>): seq<Slot> {
    match w.reply(round, p)
    case None => slots
    case Some(reply) => Put(slots, w.sendId(round, p), ReviewOne(p, reply))
  }

  function FanOut(w: World, round: nat, slots: seq<Slot>): seq<Slot> {
    Land(w, round, Compliance, Land(w, round, Governance, Land(w, round, Legal, slots)))
  }

  function BlockersOf(slots: seq<Slot>): seq<string> {
    if slots == [] then [] else slots[0].finding.blockers + BlockersOf(slots[1..])
  }

  function NegotiationGate(s: State): Stage {
    if s.open == [] then SignOff else if s.rounds >= ROUND_CAP then SignOff else Negotiate
  }

  datatype Answer = Walks | Resolves | Redlines

  /** `startswith`, WALK first; anything else is new contract text. */
  function Classify(response: string): Answer {
    if WALK <= response then Walks else if RESOLVED <= response then Resolves else Redlines
  }

  /** The first characters of the text are the prefix's. */
  ghost predicate StartsWith(text: string, prefix: string) {
    |prefix| <= |text| && forall i | 0 <= i < |prefix| :: text[i] == prefix[i]
  }

  ghost predicate IsRedline(response: string) {
    !StartsWith(response, "WALK") && !StartsWith(response, "RESOLVED")
  }

  /** Which responses walk, resolve and redline, by their first characters. */
  lemma ClassifyIff(response: string)
    ensures Classify(response) == Walks <==> StartsWith(response, "WALK")
    ensures Classify(response) == Resolves <==> StartsWith(response, "RESOLVED")
    ensures Classify(response) == Redlines <==> IsRedline(response)
  {
    PrefixIff(response, "WALK");
    PrefixIff(response, "RESOLVED");
    FirstCharacterDecides(response);
  }

  lemma FirstCharacterDecides(response: string)
    ensures StartsWith(response, "WALK") ==> response[0] == 'W'
    ensures StartsWith(response, "RESOLVED") ==> response[0] == 'R'
  {
    assert "WALK"[0] == 'W' && "RESOLVED"[0] == 'R';
  }

  lemma PrefixIff(text: string, prefix: string)
    ensures prefix <= text <==> StartsWith(text, prefix)
  {
    if StartsWith(text, prefix) { assert text[..|prefix|] == prefix; }
  }

  function Respond(response: string): Attempt<Update, Stage> {
    match Classify(response)
    case Walks => Done(Walk, Some([SignOff]))
    case Resolves => Done(Resolve, Some([SignOff]))
    case Redlines => Done(Redline(response), Some([Parse]))
  }

  function OutcomeOf(s: State): Outcome {
    if s.walked then Abandoned else if s.open != [] then Rejected else Signed
  }

  function Body(w: World, n: Stage, s: State, answers: seq<string>): Attempt<Update, Stage> {
    match n
    case Parse => Done(Prose, None)
    case Scatter => Done(Sends, None)
    case Synthesize => Done(Collected(BlockersOf(s.slots)), None)
    case Negotiate => if answers == [] then Ask else Respond(answers[0])
    case SignOff => if Retry.Delivers(w.signOff) then Done(Decide(OutcomeOf(s)), None) else Crash
    case END => Crash
  }

  function Commit(w: World, s: State, n: Stage, u: Update): State {
    match u
    case Prose => s
    case Sends => s.(slots := FanOut(w, s.rounds, s.slots))
    case Collected(blockers) => s.(open := blockers, rounds := s.rounds + 1)
    case Walk => s.(walked := true)
    case Resolve => s.(resolved := s.resolved + s.open, open := [])
    case Redline(text) => s.(text := text, resolved := s.resolved + s.open, open := [])
    case Decide(outcome) => s.(outcome := Some(outcome))
  }

  function Next(n: Stage, s: State): seq<Stage> {
    match n
    case Parse => [Scatter]
    case Scatter => [Synthesize]
    case Synthesize => [NegotiationGate(s)]
    case Negotiate => [Parse]
    case SignOff => [END]
    case END => []
  }

  function Review(w: World): Graph<State, Stage, Update, string> {
    Graph([Parse], END, (n, s, answers) => Body(w, n, s, answers), (s, n, u) => Commit(w, s, n, u), Next, 20)
  }

  lemma ReviewIsSequential(w: World)
    ensures Sequential(Review(w)) && AsksOnce(Review(w))
  {
  }

  // ----- what has been raised -----

  /** The Send slots after `k` rounds. */
  function SlotsAfter(w: World, k: nat): seq<Slot> {
    if k == 0 then [] else FanOut(w, k - 1, SlotsAfter(w, k - 1))
  }

  /** What round `k` finds open. */
  function OpenAt(w: World, k: nat): seq<string> { BlockersOf(SlotsAfter(w, k)) }

  /** The open lists of rounds 1 to k, one after the other. */
  function Cumulative(w: World, k: nat): seq<string> {
    if k == 0 then [] else Cumulative(w, k - 1) + OpenAt(w, k)
  }

  function Ledger(s: State): seq<string> { s.resolved + s.open }

  // ----- one lap -----

  lemma {:induction false} BlockersNonEmpty(slots: seq<Slot>)
    requires forall i | 0 <= i < |slots| :: slots[i].finding.blockers != []
    ensures BlockersOf(slots) == [] <==> slots == []
  {
  }

  lemma {:induction false} PutKeepsBlockers(slots: seq<Slot>, id: int, f: Finding)
    requires f.blockers != [] && forall i | 0 <= i < |slots| :: slots[i].finding.blockers != []
    ensures forall i | 0 <= i < |Put(slots, id, f)| :: Put(slots, id, f)[i].finding.blockers != []
  {
    if slots != [] && slots[0].id != id {
      PutKeepsBlockers(slots[1..], id, f);
    }
  }

  lemma {:induction false} EverySlotBlocks(w: World, k: nat)
    ensures forall i | 0 <= i < |SlotsAfter(w, k)| :: SlotsAfter(w, k)[i].finding.blockers != []
  {
    if k > 0 {
      EverySlotBlocks(w, k - 1);
      var s0 := SlotsAfter(w, k - 1);
      var s1 := Land(w, k - 1, Legal, s0);
      var s2 := Land(w, k - 1, Governance, s1);
      LandKeepsBlockers(w, k - 1, Legal, s0);
      LandKeepsBlockers(w, k - 1, Governance, s1);
      LandKeepsBlockers(w, k - 1, Compliance, s2);
    }
  }

  lemma LandKeepsBlockers(w: World, round: nat, p: Perspective, slots: seq<Slot>)
    requires forall i | 0 <= i < |slots| :: slots[i].finding.blockers != []
    ensures forall i | 0 <= i < |Land(w, round, p, slots)| :: Land(w, round, p, slots)[i].finding.blockers != []
  {
    match w.reply(round, p)
    case None =>
    case Some(reply) => PutKeepsBlockers(slots, w.sendId(round, p), ReviewOne(p, reply));
  }

  /** A round finds nothing open exactly when no reviewer has ever succeeded. */
  lemma OpenIffSomethingLanded(w: World, k: nat)
    ensures OpenAt(w, k) == [] <==> SlotsAfter(w, k) == []
  {
    EverySlotBlocks(w, k);
    BlockersNonEmpty(SlotsAfter(w, k));
  }

  lemma {:induction false} SlotsOnlyGrow(w: World, j: nat, k: nat)
    requires j <= k && SlotsAfter(w, j) != []
    ensures SlotsAfter(w, k) != []
  {
    if j < k {
      SlotsOnlyGrow(w, j, k - 1);
    }
  }

  /** The state at the start of a lap, when `k` rounds are behind. */
  function Lap(w: World, text: string, resolved: seq<string>, k: nat): State {
    State(text, SlotsAfter(w, k), [], resolved, k, false, None)
  }

  /** The state at the gate of that lap. */
  function AtGate(w: World, text: string, resolved: seq<string>, k: nat): State {
    State(text, SlotsAfter(w, k + 1), OpenAt(w, k + 1), resolved, k + 1, false, None)
  }

  lemma LapStep(
      w: World, text: string, resolved: seq<string>, k: nat, a: nat -> string, i: nat, left: nat, log: seq<Stage>)
    requires 3 <= left
    ensures Direct(Review(w), Lap(w, text, resolved, k), [Parse], a, i, left, log)
         == Direct(Review(w), AtGate(w, text, resolved, k), [NegotiationGate(AtGate(w, text, resolved, k))], a, i,
                   left - 3, log + [Parse, Scatter, Synthesize])
  {
    hide Direct, DirectSweep;
    var g, s0 := Review(w), Lap(w, text, resolved, k);
    var s1, s2 := s0.(slots := SlotsAfter(w, k + 1)), AtGate(w, text, resolved, k);
    DirectStep(g, s0, Parse, a, i, left, log, s0, Scatter);
    DirectStep(g, s0, Scatter, a, i, left - 1, log + [Parse], s1, Synthesize);
    DirectStep(g, s1, Synthesize, a, i, left - 2, log + [Parse] + [Scatter], s2, NegotiationGate(s2));
    assert log + [Parse] + [Scatter] + [Synthesize] == log + [Parse, Scatter, Synthesize];
  }

  /** Where a response leads, and the state it leaves. */
  function Responded(s: State, response: string): State {
    match Classify(response)
    case Walks => s.(walked := true)
    case Resolves => s.(resolved := s.resolved + s.open, open := [])
    case Redlines => s.(text := response, resolved := s.resolved + s.open, open := [])
  }

  lemma NegotiateStep(w: World, s: State, a: nat -> string, i: nat, left: nat, log: seq<Stage>)
    requires 0 < left
    ensures Direct(Review(w), s, [Negotiate], a, i, left, log)
         == Direct(Review(w), Responded(s, a(i)), [if Classify(a(i)) == Redlines then Parse else SignOff], a, i + 1,
                   left - 1, log + [Negotiate])
  {
    hide Direct, DirectSweep;
    DirectStep(Review(w), s, Negotiate, a, i, left, log, Responded(s, a(i)),
               if Classify(a(i)) == Redlines then Parse else SignOff);
  }

  /** The end of every negotiation: decided, or without a record when the sign-off agent fails. */
  function SignedOff(w: World, s: State, i: nat, log: seq<Stage>): Trace<State, Stage> {
    if Retry.Delivers(w.signOff) then Trace(s.(outcome := Some(OutcomeOf(s))), AtEnd, i, log + [SignOff])
    else Trace(s, Drained, i, log + [SignOff])
  }

  lemma SignOffStep(w: World, s: State, a: nat -> string, i: nat, left: nat, log: seq<Stage>)
    requires 0 < left
    ensures Direct(Review(w), s, [SignOff], a, i, left, log) == SignedOff(w, s, i, log)
  {
    if Retry.Delivers(w.signOff) {
      DirectStep(Review(w), s, SignOff, a, i, left, log, s.(outcome := Some(OutcomeOf(s))), END);
    } else {
      DirectCrash(Review(w), s, SignOff, a, i, left, log);
    }
  }

  // ----- the whole negotiation -----

  function Negotiated(w: World, text: string, a: nat -> string): Trace<State, Stage> {
    Direct(Review(w), Initial(text), Review(w).start, a, 0, Review(w).cap, [])
  }

  /** No reviewer of the first round came back. */
  predicate NothingLanded(w: World) { SlotsAfter(w, 1) == [] }

  lemma NothingLandedIff(w: World)
    ensures NothingLanded(w) <==> forall p :: w.reply(0, p).None?
  {
    assert SlotsAfter(w, 0) == [];
    if forall p :: w.reply(0, p).None? {
      assert w.reply(0, Legal).None? && w.reply(0, Governance).None? && w.reply(0, Compliance).None?;
    } else {
      var p :| w.reply(0, p).Some?;
      match p { case Legal => case Governance => case Compliance => }
    }
  }

  /** The index of the first response that is not a redline, among the first two. */
  ghost function Decision(a: nat -> string): Option<nat> {
    if !IsRedline(a(0)) then Some(0)
    else if !IsRedline(a(1)) then Some(1)
    else None
  }

  /** There is a decision only if the sign-off agent delivers one. */
  function Recorded(signs: bool, outcome: Outcome): Option<Outcome> { if signs then Some(outcome) else None }

  /** How a negotiation must end, from the reviewers' success and counsel's responses alone. */
  ghost predicate WellEnded(w: World, a: nat -> string, t: Trace<State, Stage>) {
    var s, signs := t.state, Retry.Delivers(w.signOff);
    && t.why == (if signs then AtEnd else Drained) && s.rounds <= 3 && t.used <= 2
    && |t.log| == 3 * s.rounds + t.used + 1
    && (NothingLanded(w) ==> s.outcome == Recorded(signs, Signed) && t.used == 0 && s.rounds == 1)
    && (!NothingLanded(w) ==>
          match Decision(a)
          case None => s.outcome == Recorded(signs, Rejected) && t.used == 2 && s.rounds == 3
          case Some(r) =>
            && s.outcome == Recorded(signs, if StartsWith(a(r), "WALK") then Abandoned else Signed)
            && t.used == r + 1 && s.rounds == r + 1)
  }

  /** A lap with something open and rounds to go: counsel is asked. */
  lemma AskedLap(
      w: World, text: string, resolved: seq<string>, k: nat, a: nat -> string, i: nat, left: nat, log: seq<Stage>)
    requires 4 <= left && k < 2 && !NothingLanded(w)
    ensures var s := AtGate(w, text, resolved, k); (
            Direct(Review(w), Lap(w, text, resolved, k), [Parse], a, i, left, log)
         == Direct(Review(w), Responded(s, a(i)), [if Classify(a(i)) == Redlines then Parse else SignOff], a, i + 1,
                   left - 4, log + [Parse, Scatter, Synthesize] + [Negotiate]))
    ensures var s := AtGate(w, text, resolved, k);
            && s.open != []
            && (Classify(a(i)) == Redlines ==> Responded(s, a(i)) == Lap(w, a(i), resolved + OpenAt(w, k + 1), k + 1))
  {
    hide Direct, DirectSweep;
    SlotsOnlyGrow(w, 1, k + 1);
    OpenIffSomethingLanded(w, k + 1);
    LapStep(w, text, resolved, k, a, i, left, log);
    NegotiateStep(w, AtGate(w, text, resolved, k), a, i, left - 3, log + [Parse, Scatter, Synthesize]);
  }

  /** The lap in which nobody asks: nothing is open, or it is the third. */
  lemma LastLap(
      w: World, text: string, resolved: seq<string>, k: nat, a: nat -> string, i: nat, left: nat, log: seq<Stage>)
    requires 4 <= left && (k == 2 || OpenAt(w, k + 1) == [])
    ensures var s := AtGate(w, text, resolved, k); (
            Direct(Review(w), Lap(w, text, resolved, k), [Parse], a, i, left, log)
         == SignedOff(w, s, i, log + [Parse, Scatter, Synthesize]))
  {
    hide Direct, DirectSweep;
    LapStep(w, text, resolved, k, a, i, left, log);
    SignOffStep(w, AtGate(w, text, resolved, k), a, i, left - 3, log + [Parse, Scatter, Synthesize]);
  }

  /** The second and third laps. */
  lemma AfterFirstRedline(w: World, a: nat -> string)
    requires !NothingLanded(w) && Classify(a(0)) == Redlines
    ensures var log := [] + [Parse, Scatter, Synthesize] + [Negotiate];
            WellEnded(w, a, Direct(Review(w), Lap(w, a(0), [] + OpenAt(w, 1), 1), [Parse], a, 1, 16, log))
  {
    hide Direct, DirectSweep, Classify, StartsWith, IsRedline;
    ClassifyIff(a(0));
    ClassifyIff(a(1));
    OpenIffSomethingLanded(w, 3);
    SlotsOnlyGrow(w, 1, 3);
    var log := [] + [Parse, Scatter, Synthesize] + [Negotiate];
    var resolved := [] + OpenAt(w, 1);
    AskedLap(w, a(0), resolved, 1, a, 1, 16, log);
    var log' := log + [Parse, Scatter, Synthesize] + [Negotiate];
    if Classify(a(1)) == Redlines {
      LastLap(w, a(1), resolved + OpenAt(w, 2), 2, a, 2, 12, log');
    } else {
      SignOffStep(w, Responded(AtGate(w, a(0), resolved, 1), a(1)), a, 2, 12, log');
    }
  }

  /** MAIN RESULT: the outcome, the number of questions and the length of every negotiation. */
  lemma NegotiationOutcome(w: World, text: string, a: nat -> string)
    ensures WellEnded(w, a, Negotiated(w, text, a))
  {
    hide Direct, DirectSweep, Classify, StartsWith, IsRedline;
    ClassifyIff(a(0));
    OpenIffSomethingLanded(w, 1);
    OpenIffSomethingLanded(w, 3);
    if NothingLanded(w) {
      LastLap(w, text, [], 0, a, 0, 20, []);
    } else {
      SlotsOnlyGrow(w, 1, 3);
      AskedLap(w, text, [], 0, a, 0, 20, []);
      var s1 := AtGate(w, text, [], 0);
      if Classify(a(0)) == Redlines {
        AfterFirstRedline(w, a);
      } else {
        SignOffStep(w, Responded(s1, a(0)), a, 1, 16, [] + [Parse, Scatter, Synthesize] + [Negotiate]);
      }
    }
  }

  // ----- two negotiations that end otherwise than announced -----

  function Rank(p: Perspective): nat { match p case Legal => 0 case Governance => 1 case Compliance => 2 }

  /** Three reviewers that always name one gap, identifiers that are all different, a sign-off that works. */
  function OneGapEach(): World {
    World((round, p) => Some(Reply("gap", [])), (round, p) => 3 * round + Rank(p), i => Retry.Parsed("ok"))
  }

  /** The same, except that no reviewer ever comes back. */
  function Deserted(): World { OneGapEach().(reply := (round, p) => None) }

  /** A contract that nobody reviewed is signed without a question. */
  lemma UnreviewedIsSigned(text: string, a: nat -> string)
    ensures
      var t := Negotiated(Deserted(), text, a);
      t.why == AtEnd && t.state.outcome == Some(Signed) && t.used == 0
  {
    hide Direct;
    NothingLandedIff(Deserted());
    NegotiationOutcome(Deserted(), text, a);
    assert Retry.Delivers(Deserted().signOff);
  }

  /** The three answers the notebook prepares: two redlines and RESOLVED. The third is never used, and the contract is
    * rejected.
    */
  lemma PreparedAnswersReject(text: string, default: string)
    ensures
      var t := Negotiated(OneGapEach(), text, Supply(["new clause", "next clause", "RESOLVED"], default));
      t.why == AtEnd && t.state.outcome == Some(Rejected) && t.used == 2
  {
    hide Direct;
    var w, a := OneGapEach(), Supply(["new clause", "next clause", "RESOLVED"], default);
    assert a(0)[0] == 'n' && a(1)[0] == 'n';
    NewTextIsRedline(a(0));
    NewTextIsRedline(a(1));
    assert w.reply(0, Legal).Some?;
    NothingLandedIff(w);
    NegotiationOutcome(w, text, a);
    assert Retry.Delivers(w.signOff);
    hide IsRedline, StartsWith;
  }

  lemma NewTextIsRedline(response: string)
    requires response != "" && response[0] == 'n'
    ensures IsRedline(response)
  {
  }

  /** The interrupting driver ends where the negotiation does; two resumes are always enough,
    * so a third prepared answer is never used.
    */
  lemma DriverNegotiates(w: World, text: string, a: nat -> string, resumes: nat)
    requires 2 <= resumes
    ensures SameFinish(Negotiated(w, text, a),
                       Drive(Review(w), Call(Review(w), Initial(text), None, []), a, 0, resumes))
    ensures WellEnded(w, a, Negotiated(w, text, a))
  {
    NegotiationOutcome(w, text, a);
    ReviewIsSequential(w);
    SequentialIsSolo(Review(w), Initial(text), Review(w).start, a, 0, 20);
    PauseResumeRefinesDirect(Review(w), Initial(text), a, 20, resumes);
  }

  /** The resume loop of `main`: answers past the prepared ones are RESOLVED. */
  method DriveNegotiation(
      w: World, text: string, answers: seq<string>)
    returns (result: Result<State, Stage>, used: nat)
    ensures var t := Negotiated(w, text, Supply(answers, "RESOLVED"));
            && result == Halted(t.state, t.why, t.log) && used == t.used && used <= 2
            && WellEnded(w, Supply(answers, "RESOLVED"), t)
  {
    hide Call, Direct, WellEnded;
    ghost var a := Supply(answers, RESOLVED);
    ghost var finish := Drive(Review(w), Call(Review(w), Initial(text), None, []), a, 0, 2);
    DriverNegotiates(w, text, a, 2);
    result := Execute(Review(w), Initial(text), None, []);
    used := 0;
    while result.Paused?
      invariant used <= 2 && Drive(Review(w), result, a, used, 2 - used) == finish
      decreases 2 - used
    {
      var answer := if used < |answers| then answers[used] else RESOLVED;
      result := Execute(Review(w), result.state, Some((result.at, answer)), Completed(result));
      used := used + 1;
    }
  }
}
