# Tulip: workflow graphs, their drivers and the algorithms around them

This project models the graph runtime of Tulip (`StateGraph.execute` and what it calls), the
interruptible workflows that the example notebooks build on it, and the self-contained algorithms of the
examples, the benchmark and the coverage script. It proves what these promise, for all inputs: every
model reply, every human answer, every order of completion, every history.

`dafny verify dfyconfig.toml` checks everything.

## How it is put together

`Engine` is the frontier loop of `execute`. A node body is a function of its state and of the answers its
successive `interrupt()` calls have received; it finishes with an update and an optional `goto`, fails, or
asks. The function `Call` says what one call of `execute` returns; the method `Execute` runs the loop and
is proved equal to it. The loop's rules are those of the code: all nodes of a frontier run against the same
state; results are merged in order; the first interrupt ends the call; failed nodes contribute neither an
update nor successors; a `goto` replaces the edges; END stops after the current frontier; the next frontier is
deduplicated; only the interrupted node is re-run on resume, with one answer; the iteration cap is
counted per call. `EngineLaws` says what one iteration amounts to in terms of the node bodies, the edges and the
merges alone.

`PauseResume` adds the driver that answers and resumes, and a reference semantics `Direct` in which every
question is answered on the spot. `DriveIsPerCall` says what the driver does in full: in every graph whose nodes ask
at most once it is the single run `PerCall`, in which a question costs one resume, keeps what stood before it, drops
what stood behind it and starts a new budget of `cap` iterations. `AgreesIff` and `DriverFinishesIff` then say exactly
when that run ends like the uninterrupted one: where no question makes a difference, if and only if there is a resume
for every question and no single call needs more than `cap` iterations. `ParallelQuestions` says when a question inside
a parallel frontier makes no difference (`AlikeIff`), `EngineLimits` when the cap cuts off the uninterrupted run but
not the driver, with small graphs as witnesses, and `Failures` what happens when nodes raise. `CycleCheck` is the
depth-first search behind `add_edge`, and `Acyclicity` what passing it is good for: runs that the cap never cuts off.
That nodes ask at most once cannot be dropped (`SecondQuestionIsNeverAnswered`).

The workflow modules (`ApprovalLadder`, `ContractNegotiation`, `BlockerLedger`, `IncidentRunbook`, `HumanInLoop`,
`ChangeRequest`, `CriticLoop`, `Debate`) instantiate the engine with the notebooks' nodes and routers. Model replies,
human answers and the failures of the agents of the ladder, the negotiation, the runbook, the payment gate and the
debate are unconstrained parameters; `BoundedRetry` says when the agents that must return an object deliver one.

The other modules are free of the engine. `TriageReport` (with `Sorting` and `OrderedSort`) is the scatter-gather
reduce step, `Reducers` is state merging with the two custom reducers, `OutcomeStore` is check-then-record on a shared store,
`SafeMath` the whitelisted evaluators, `OrderStatistics` the benchmark's summary, `Cosine` the similarity,
and `CoverageRatchet` the coverage script.
Code that updates things step by step is a method proved against a specification function; values and routers are
functions.

## Where the code differs from what is said about it

- `examples/notebook_65_contract_review.py:515-521` announces that the vendor accepts on the third pass. The gate
  sends the third round straight to sign-off, so at most two answers are ever used and a third prepared answer never
  is (`DriverNegotiates`): two redlines always end in a rejection, whatever the third answer says
  (`PreparedAnswersReject`).
- The same notebook names `blockers_resolved` and `open_blockers` as if together they were the blockers raised. The
  runtime stores each Send's result under a fresh identifier and never removes it, so every later round collects the
  findings of all earlier rounds again. `NegotiationConservedIff` gives the exact condition: at the end the ledger is
  the list of blockers raised if and only if no reviewer of the first round came back or counsel's first response is
  no redline; `FreshConservedIff` says the same of every reachable state in terms of its rounds, and `LedgerRepeats` is
  an input that fails. Had identifiers been reused, the ledger would always be conserved (`ReusedAlwaysConserved`).
- In the same workflow the exit "no open blockers" is not unreachable: a reviewer never returns an empty list, but a
  reviewer that fails returns nothing, and if all three fail in the first round the contract is signed without a
  question (`NegotiationOutcome`, `UnreviewedIsSigned`).
- `examples/notebook_31_supervisor_critic_loop.py:259-264` caps the revisions, but the counter only moves for a
  non-empty revision request; a critic that rejects in silence runs the loop into `max_iterations`
  (`ThreeDraftsIff`, `SilentCriticNeverStops`).
- `examples/notebook_33_multiagent_human_in_loop.py:186-209`: the escalating node asks its model again when it is
  resumed, so the human's answer is used only if the second reply is no category either (`RestartAsksAgain`).
- `examples/notebook_30_map_reduce_code_review.py:172-175`: a ticket whose id is `analysis` makes the tickets
  dictionary look like a result and crashes the report (`TriageIsDeterministic`, `TicketCalledAnalysisCrashes`).
- `src/tulip/core/reducers.py:399-433` applies a reducer only to a key that is already in the state, and declared
  defaults are not put there: the first write of a field bypasses its reducer (`UniqueFieldIsDedupeIff`,
  `RepetitionStays`, `MaxFieldIsLargestIff`). `max_value` is also not bounded below by its declared default 0
  (`MaxFieldIsAtLeastZeroIff`, `NegativesStayNegative`).
- `src/tulip/multiagent/graph.py:1236-1296`: an interrupt inside a parallel frontier keeps the updates of the peers
  before it, drops the results of the peers behind it, and drops the successors of all of them (`InterruptedFrontier`,
  for every frontier). `AlikeIff` is the condition under which that is the same as no interrupt at all.
- `examples/complex_agent.py:349-357` names the exceptions that the calculator tool turns into a message. It contains
  every error if and only if nothing it applies raises another one (`NothingEscapesIff`), and it does not: a function
  called with a number of arguments it cannot take raises TypeError (`ToolLeaksIff`), and so does the remainder of a
  complex number, so that `((-1) ** 0.5) % 2` escapes without any function (`ComplexRemainderEscapes`).
- `src/tulip/multiagent/graph.py:845-849`: a graph that does not allow cycles may still loop. The check looks at plain
  edges only (`HasCycle` is exact for these), and the critic loop closes its cycle with a conditional edge
  (`LoopPassesTheCycleCheck`).
- `src/tulip/core/interrupt.py:183-247` documents resumption per `interrupt()` call; a node that asks twice never
  gets its second answer, because each resume restarts it with one (`SecondQuestionIsNeverAnswered`).

## Model

| member | source | states |
|---|---|---|
| Engine.AttemptAll | src/tulip/multiagent/graph.py:1146-1234 | every node of a frontier except END is run against the same state, and only the resumed one is handed the answer |
| Engine.Settle | src/tulip/multiagent/graph.py:1236-1316 | merging the results in order, skipping failures and stopping at the first interrupt, is the sweep of the specification |
| Engine.Execute | src/tulip/multiagent/graph.py:1049-1358 | the iteration loop returns exactly what the recursive specification of one call says: state, stop reason or interrupted node, and execution order |
| EngineLaws.RunGoesOn | src/tulip/multiagent/graph.py:928-952 | a node that finishes is followed by every target of its goto, or of its edges in the merged state if it has none, each once; END among them ends the run |
| EngineLaws.ResumeGoesOn | src/tulip/multiagent/graph.py:1146-1316 | a resumed node is given the answer, the state it is resumed with and a new budget; finishing, raising and asking again have each their result |
| EngineLaws.FrontierGoesOn | src/tulip/multiagent/graph.py:1298-1358 | one iteration of any frontier in which nobody asks, in terms of bodies, merges and edges alone: the updates of all nodes that finish are merged in order, END in the frontier or among the targets ends the run, otherwise it goes on with all targets |
| EngineLaws.FrontierPauses | src/tulip/multiagent/graph.py:1236-1296 | a frontier in which n is the first to ask pauses at n with the updates of those before it that finished, and with all its nodes attempted |
| EngineLaws.NextFrontierIff | src/tulip/multiagent/graph.py:928-952 | the next frontier holds exactly every target of every node that finished, each of them once and in the order in which they first occur |
| EngineLaws.QuietSweepMerges | src/tulip/multiagent/graph.py:1236-1316 | the sweep behind it, for the uninterrupted semantics as well |
| PauseResume.Answer | examples/notebook_19_human_in_the_loop.py:344-352 | the answer-and-resume loop is the driver function, for prepared answers followed by a default, with a bound on the resumes |
| PauseResume.DriveIsPerCall | src/tulip/multiagent/graph.py:1049-1358 | for every graph whose nodes ask at most once, every frontier, budget and number of resumes: interrupting and resuming equals one run with a budget per call, pauses left unanswered and exhausted calls included |
| PauseResume.AgreesIff | src/tulip/multiagent/graph.py:1049-1358 | where questions make no difference and the uninterrupted run finishes, the driver finishes in the same state, for the same reason, with the same answers and nodes, if and only if it has a resume for every question and no single call needs more than `max_iterations` |
| PauseResume.DriverFinishesIff | src/tulip/multiagent/graph.py:1049-1358 | the driver finishes at all if and only if the uninterrupted run with room for all calls finishes, its questions do not exceed the resumes and no call exceeds the cap |
| PauseResume.SequentialAgreesIff | examples/notebook_19_human_in_the_loop.py:8-14 | the same equivalence for every graph with at most one successor per node |
| PauseResume.PauseResumeRefinesDirect | examples/notebook_19_human_in_the_loop.py:8-14 | the sufficient half that needs no count: if the uninterrupted run as a whole fits one call and questions are asked alone, the driver ends identically |
| PauseResume.DriverFinishesOnlyWhatDirectDoes | examples/notebook_19_human_in_the_loop.py:8-14 | what the driver finishes, the uninterrupted run with room for all its calls finishes identically, questions being asked alone |
| PauseResume.SegmentRefines | src/tulip/multiagent/graph.py:1049-1358 | from any point of a run, with any rest of the per-call budget that the run fits |
| PauseResume.QuietSweep | src/tulip/multiagent/graph.py:1236-1316 | a frontier in which nobody asks is swept alike by both semantics |
| PauseResume.AskingIteration | src/tulip/core/interrupt.py:183-247 | a lone question leaves the state untouched, and the resumed call does what the uninterrupted run does at once |
| PauseResume.SequentialIsSolo | src/tulip/multiagent/graph.py:928-952 | in a graph whose nodes have at most one successor, every question is asked alone |
| PauseResume.SecondQuestionIsNeverAnswered | src/tulip/core/interrupt.py:230-247 | a node that asks again after any answer stays interrupted however often it is resumed |
| ParallelQuestions.InterruptedFrontier | src/tulip/multiagent/graph.py:1236-1296 | for every frontier in which n is the first to ask: the pause keeps the updates of the peers before n and nothing of those behind, and the resumed call runs n alone and goes on with its successors only |
| ParallelQuestions.PeersBehindDoNotCount | src/tulip/multiagent/graph.py:1236-1296 | once the question is answered, the driver goes on as if the peers behind n, an END among them included, had not been there |
| ParallelQuestions.AlikeIff | src/tulip/multiagent/graph.py:1223-1358 | for every frontier: answering on the spot and pausing reach the same point if and only if nobody real stands behind n, n's attempt against the first state, merged into the peers' state, leaves what its attempt against the peers' state leaves, and all successors together continue as n's own do |
| ParallelQuestions.SteadyAskerIsAlikeIff | src/tulip/multiagent/graph.py:1236-1358 | for a node that answers alike in both states: nobody real stands behind it and either it leads to END or nobody does and its successors are all there are |
| EngineLimits.CutOffButDrivenIff | src/tulip/multiagent/graph.py:1045-1050 | for every graph whose questions make no difference: the cap cuts off the uninterrupted run but not the driver if and only if the run takes more than the cap in all while no call does, and there are resumes enough |
| EngineLimits.CapIsPerCall | src/tulip/multiagent/graph.py:1045-1050 | a witness: a chain that the cap of two cuts off in one call is completed by the driver |
| EngineLimits.ParallelPeersAreLost | src/tulip/multiagent/graph.py:1245-1296 | a witness: with a question inside a parallel frontier the peer's successor never runs, and the run ends drained where the uninterrupted one reaches END |
| EngineLimits.SharedSuccessorIsHarmless | src/tulip/multiagent/graph.py:1245-1296 | a witness: a question that is not asked alone, and makes no difference because the peers share their successor |
| Failures.FailingRunIsCutShort | src/tulip/multiagent/graph.py:1298-1316 | in every graph with at most one successor per node, whichever nodes raise, before asking or upon an answer, the run is the ordinary one or stops drained right before the first that raises, with the state and nodes up to there and at most one further answer used |
| Failures.FailingStaysSequential | src/tulip/multiagent/graph.py:1298-1316 | nodes that may raise keep the conditions of the driver theorems |
| CycleCheck.RebuildAdjacency | src/tulip/multiagent/graph.py:893-900 | the lists hold the targets of every node in the order of the edges |
| CycleCheck.Dfs | src/tulip/multiagent/graph.py:907-919 | the search from a node either finds a cycle or finishes the node: every finished node leads to nodes finished before it only |
| CycleCheck.HasCycle | src/tulip/multiagent/graph.py:902-926 | true if and only if some path along the edges leads back to where it began; otherwise the finishing order lists every node once, behind all it leads to |
| CycleCheck.EdgeList.AddEdge | src/tulip/multiagent/graph.py:804-851 | accepted iff both ends are known and, unless cycles are allowed, the edge closes none; a refused edge leaves no trace, so without that permission the edges never hold a cycle |
| Acyclicity.RisingRunEnds | src/tulip/multiagent/graph.py:1049-1358 | if a rank below `top` rises along every edge and goto, a run with `top` iterations is never cut off, from any frontier and state and under any answers |
| Acyclicity.RisingAgreesIff | src/tulip/multiagent/graph.py:1049-1358 | then the driver of a sequential graph agrees with the uninterrupted run if and only if it has a resume for every question |
| Acyclicity.AcyclicGraphEnds | src/tulip/multiagent/graph.py:845-849 | a graph that moves along edges which passed the check ends by itself within as many iterations as it has nodes |
| ApprovalLadder.LadderTheorem | examples/notebook_64_procurement_approval.py:129-295 | for every score, all answers and all failures of the agents: with no summary or no assessment nobody is asked and nothing is filed; else below 25 approved with no question, otherwise the approvals are the longest all-yes prefix of the ladder, filed as approved iff that is the whole ladder, no gate skipped and none visited after a denial; if the recorder fails nothing is filed |
| ApprovalLadder.RouterAgreesWithGates | examples/notebook_64_procurement_approval.py:146-229 | the router's four tiers and the two gates' thresholds call for the same number of approvals |
| ApprovalLadder.DriverClimbs | examples/notebook_64_procurement_approval.py:360-376 | the driver ends where the review does, failures included, and three resumes are always enough |
| ApprovalLadder.DriveReview | examples/notebook_64_procurement_approval.py:360-376 | the unbounded resume loop terminates in the review's final state, with "yes" standing in for missing answers |
| ContractNegotiation.ReviewOne | examples/notebook_65_contract_review.py:158-178 | a reviewer that returns at all raises at least one blocker |
| ContractNegotiation.ReviewSplits | examples/notebook_65_contract_review.py:165-177 | bullets are split in the middle, the odd one a change; a lone bullet is a blocker, and so is a text without bullets, "(no findings)" if it is empty |
| ContractNegotiation.OpenIffSomethingLanded | examples/notebook_65_contract_review.py:181-188 | a round finds nothing open exactly when no reviewer has ever come back |
| ContractNegotiation.ClassifyIff | examples/notebook_65_contract_review.py:225-247 | a response walks away iff its first four characters are WALK, resolves iff its first eight are RESOLVED, and is a redline iff neither |
| ContractNegotiation.NegotiationOutcome | examples/notebook_65_contract_review.py:191-323 | abandoned if the first of the two responses that is no redline starts with WALK, signed if with RESOLVED, rejected if both are redlines; at most two questions, three rounds and 3 * rounds + questions + 1 (so at most 12) nodes; signed without a question iff no reviewer of round one came back; if the sign-off agent fails the run is the same but records nothing and ends drained |
| ContractNegotiation.NothingLandedIff | examples/notebook_65_contract_review.py:158-188 | the state holds no finding after round one exactly when all three reviewers of that round failed |
| ContractNegotiation.UnreviewedIsSigned | examples/notebook_65_contract_review.py:191-264 | an input: no reviewer comes back, and the contract is signed without a question |
| ContractNegotiation.PreparedAnswersReject | examples/notebook_65_contract_review.py:515-537 | an input: two redlines and a prepared RESOLVED end rejected, the third answer unused |
| ContractNegotiation.DriverNegotiates | examples/notebook_65_contract_review.py:515-537 | two resumes are always enough: the driver finishes like the uninterrupted negotiation |
| ContractNegotiation.DriveNegotiation | examples/notebook_65_contract_review.py:522-537 | the resume loop of `main`, with RESOLVED standing in for missing answers, terminates having used at most two answers: abandoned, signed or rejected as the first characters of these demand |
| BlockerLedger.AdvanceKeepsInv | examples/notebook_65_contract_review.py:181-247 | every stage under every response leads from its invariant to its successor's; nothing is open on entry to `synthesize` |
| BlockerLedger.AdvanceIsDirect | examples/notebook_65_contract_review.py:326-350 | the stage function is what one step of the runtime does |
| BlockerLedger.LedgerIsCumulative | examples/notebook_65_contract_review.py:181-247 | at every reachable state, for any Send identifiers, resolved ++ open is the concatenation of all rounds' open lists |
| BlockerLedger.FailingLedgerIsCumulative | examples/notebook_65_contract_review.py:181-247 | the same at the end of a negotiation in which any node raises, be it upon what counsel responds |
| BlockerLedger.FreshSlotsAccumulate | src/tulip/multiagent/graph.py:1307-1312 | with identifiers that are never drawn twice, round k finds open everything raised in rounds 1 to k |
| BlockerLedger.FreshConservedIff | examples/notebook_65_contract_review.py:181-247 | at every reachable state: the ledger equals the list of blockers ever raised if and only if at most one round has taken place |
| BlockerLedger.NegotiationConservedIff | examples/notebook_65_contract_review.py:181-247 | for a whole negotiation: conserved if and only if all reviewers of the first round fail or counsel's first response starts with WALK or RESOLVED |
| BlockerLedger.LedgerRepeats | examples/notebook_65_contract_review.py:239-247 | an input that fails: three reviewers, distinct identifiers and one redline |
| BlockerLedger.FreshLedgerElements | examples/notebook_65_contract_review.py:181-247 | as a set nothing is lost or invented, at every reachable state |
| BlockerLedger.ReusedSlotsOverwrite | src/tulip/core/send.py:71-76 | with reused identifiers the state holds exactly the last round's three results |
| BlockerLedger.ReusedAlwaysConserved | examples/notebook_65_contract_review.py:181-247 | with reused identifiers and reviewers that never fail the ledger is conserved at every reachable state |
| IncidentRunbook.StripIff | examples/notebook_63_incident_response.py:147-147 | stripping yields a word exactly when only punctuation surrounds it |
| IncidentRunbook.CriticalIff | examples/notebook_63_incident_response.py:142-150 | a reply is critical iff its first word is "critical" up to surrounding punctuation |
| IncidentRunbook.InfoIff | examples/notebook_63_incident_response.py:142-150 | likewise for "info"; everything else, and no reply, is a warning |
| IncidentRunbook.NoUnapprovedCriticalMitigation | examples/notebook_63_incident_response.py:142-298 | for any model text, answer, start state and failing agents: mitigation is carried out only if the incident is not critical or the human said exactly "yes", and is skipped, not failed, otherwise; one question iff the gate is reached with a critical incident; mitigation precedes the single postmortem; the run ends drained at the first agent that fails |
| IncidentRunbook.MitigationIsGuarded | examples/notebook_63_incident_response.py:207-214 | in whatever state the mitigation stage is reached, its agent is called iff the incident is not critical or is on record as approved |
| IncidentRunbook.OneResumeIsEnough | examples/notebook_63_incident_response.py:346-355 | the driver, which resumes at most once, finishes every run |
| HumanInLoop.ReleasedIffApproved | examples/notebook_33_multiagent_human_in_loop.py:101-150 | the payment graph pauses at the gate unless its triage or disbursement agent raises, and then ends with nobody asked and nothing released; after the pause the payment is released iff the answer is "yes" |
| HumanInLoop.RestartAsksAgain | examples/notebook_33_multiagent_human_in_loop.py:186-223 | it pauses iff the first reply is no category; after the answer the payment goes to the second reply if that is a category, otherwise to the answer |
| HumanInLoop.RepeatableModelDefersToHuman | examples/notebook_33_multiagent_human_in_loop.py:186-209 | with a model that repeats itself the human decides |
| HumanInLoop.HumanCanBeOverruled | examples/notebook_33_multiagent_human_in_loop.py:186-209 | whatever the human answers, each of the three categories can overrule it |
| ChangeRequest.FormTakesWhatItIsGiven | examples/notebook_19_human_in_the_loop.py:94-147 | for any form and any list of responses: they fill the fields in order, the form stays paused at the first unanswered question, extra responses are unused, a ticket is created iff the third is "confirm" |
| ChangeRequest.TwoStages | examples/notebook_19_human_in_the_loop.py:265-327 | approved iff both reviewers approve; the manager is asked iff the first review approved |
| ChangeRequest.DriverApproves | examples/notebook_19_human_in_the_loop.py:337-352 | the driver with two answers always finishes, as those answers demand |
| CriticLoop.DraftCount | examples/notebook_31_supervisor_critic_loop.py:194-291 | the author drafts once more than the index of the first stopping review, unless the iteration cap comes first, and then cap / 2 times |
| CriticLoop.RunsToTheCap | examples/notebook_31_supervisor_critic_loop.py:259-264 | if no review may stop the loop, only the engine's cap does |
| CriticLoop.EndsIff | examples/notebook_31_supervisor_critic_loop.py:202-264 | some review stops the loop iff some verdict approves or two verdicts are non-empty |
| CriticLoop.ApprovesIff | examples/notebook_31_supervisor_critic_loop.py:216-216 | a verdict approves iff its first seven characters spell the word, each in either case |
| CriticLoop.AtMostThreeDrafts | examples/notebook_31_supervisor_critic_loop.py:259-264 | a critic that never rejects in silence allows at most three drafts |
| CriticLoop.FailuresDraftNoMore | examples/notebook_31_supervisor_critic_loop.py:188-264 | the bound survives agents that raise at any point |
| CriticLoop.LoopPassesTheCycleCheck | examples/notebook_31_supervisor_critic_loop.py:272-287 | the plain edges of the loop hold no cycle although its router leads back to the author |
| CriticLoop.ThreeDraftsIff | examples/notebook_31_supervisor_critic_loop.py:202-264 | three drafts are enough iff one of the first three verdicts approves or the first two are non-empty |
| CriticLoop.SilentCriticNeverStops | examples/notebook_31_supervisor_critic_loop.py:217-220 | a silent critic keeps the author at work for all 100 iterations |
| Debate.DebateTranscript | examples/notebook_32_debate_with_judge.py:133-225 | for every number of rounds and any failing agents: undisturbed, the judge is asked after exactly 2 * max(1, N) turns if they and the ruling fit under the cap, and nobody is otherwise; entry i belongs to side i % 2 of round i / 2 and was written after reading exactly the entries before it; at the first turn whose agent raises the debate ends drained with the turns before it; there is a verdict iff the judge delivers one |
| Debate.TurnExtends | examples/notebook_32_debate_with_judge.py:133-149 | one turn keeps the transcript well formed |
| Debate.FailureIsUnique | examples/notebook_32_debate_with_judge.py:133-149 | a debate fails at one point at most, and not before the turns that were made |
| BoundedRetry.Emit | examples/notebook_32_debate_with_judge.py:178-197 | the retry loop computes the first return: the first call that returns decides, parsed or not; failure iff all three raise; never a call after one that returned |
| BoundedRetry.DeliversIff | examples/notebook_32_debate_with_judge.py:178-197 | the node returns an object iff the first of its three calls that does not raise is parsed |
| TriageReport.Synthesize | examples/notebook_30_map_reduce_code_review.py:172-186 | the grouping and rendering loops give the specified report, and crash iff some value of the state is a tickets dictionary with the key "analysis" |
| TriageReport.GroupByTicket | examples/notebook_30_map_reduce_code_review.py:175-177 | every ticket's group holds its analyses in arrival order, and the keys are the tickets in order of first arrival |
| TriageReport.ReportIgnoresOrder | examples/notebook_30_map_reduce_code_review.py:172-186 | permuted analyses with unique (ticket, role) pairs give the identical report |
| TriageReport.ReportIsTypesetting | examples/notebook_30_map_reduce_code_review.py:178-186 | the report is the header and one pass over the analyses sorted by ticket and then role, each shown exactly once under its ticket's only heading |
| TriageReport.FanOutMember | examples/notebook_30_map_reduce_code_review.py:120-132 | the fan-out is exactly the product of tickets and roles, restricted to the Sends that succeeded |
| TriageReport.FanOutUnique | examples/notebook_30_map_reduce_code_review.py:120-132 | no (ticket, role) pair is sent twice |
| TriageReport.FanOutAt | examples/notebook_30_map_reduce_code_review.py:120-132 | if every agent replies, role j of ticket i stands at position i * roles + j |
| TriageReport.TriageIsDeterministic | examples/notebook_30_map_reduce_code_review.py:120-186 | in whatever order results land among the state's values the report is that of the fan-out; it crashes iff a ticket is called "analysis"; the count is tickets times roles if every agent replies |
| TriageReport.TicketCalledAnalysisCrashes | examples/notebook_30_map_reduce_code_review.py:172-175 | an input: one ticket called "analysis" crashes the report |
| Sorting.SortSorts | examples/notebook_30_map_reduce_code_review.py:180-182 | the sort orders by key and permutes |
| OrderedSort.SortSorts | examples/notebook_30_map_reduce_code_review.py:180-182 | over any total preorder the sort is sorted, a permutation and of the same length |
| OrderedSort.SortIsStable | examples/notebook_30_map_reduce_code_review.py:180-182 | equivalent elements keep the order they came in |
| Sorting.LeqIff | examples/notebook_30_map_reduce_code_review.py:180-182 | the order of the keys is that of a dictionary: a prefix first, otherwise the smaller character at the first difference |
| Sorting.SortIgnoresOrder | examples/notebook_30_map_reduce_code_review.py:180-182 | with distinct keys the sorted list does not depend on the order of the input |
| SafeMath.Conservative | examples/complex_agent.py:86-104 | on expressions without names and calls the evaluator agrees with the smaller one, errors included |
| SafeMath.EmptyWhitelistIsSmall | examples/notebook_40_rag_agents.py:72-88 | with empty whitelists the two agree on every expression, up to the wording of their own ValueError |
| SafeMath.WhitelistMonotone | examples/complex_agent.py:86-104 | enlarging the whitelists changes nothing but refusals: values and all other errors stay |
| SafeMath.SmallSuccessSurvives | examples/notebook_40_rag_agents.py:72-88 | whatever the smaller evaluator computes, the larger one computes under every whitelist |
| SafeMath.SubstPreserves | examples/complex_agent.py:91-94 | replacing whitelisted names by their constants and evaluating without names is the same, errors included |
| SafeMath.OnlyWhitelistedCalls | examples/complex_agent.py:99-103 | only whitelisted functions are called; the calls made are a prefix of the calls written, and all of them on success |
| SafeMath.CallReplies | examples/complex_agent.py:99-103 | a call of a whitelisted function whose arguments evaluate replies what the function does with their values; every contained exception gives the message |
| SafeMath.CallOnNumbers | examples/complex_agent.py:99-103 | on numbers: the answer is v if and only if the function returns v |
| SafeMath.BinaryReplies | examples/complex_agent.py:95-96 | each of the seven binary operators on two numbers replies what it does with them in that order; any other one is refused |
| SafeMath.UnaryReplies | examples/complex_agent.py:97-98 | likewise for the unary operators |
| SafeMath.LeavesReply | examples/complex_agent.py:86-104 | a number is its own value, a name is its constant or refused, a call of a function that is not whitelisted is refused whatever its arguments |
| SafeMath.ValueStandsForExpression | examples/complex_agent.py:86-104 | at any place in any expression, an expression that evaluates to v may be replaced by the number v: value and errors stay |
| SafeMath.FirstErrorWins | examples/complex_agent.py:95-98 | the error of the first operand from the left that has one is the error of the operation |
| SafeMath.FirstBadArgumentWins | examples/complex_agent.py:99-103 | the same for the arguments of a whitelisted function, any number of which may come before |
| SafeMath.RefusalsCallNothing | examples/complex_agent.py:95-104 | unknown operators, functions that are not whitelisted and keyword arguments are refused before anything is called |
| SafeMath.NothingEscapesIff | examples/complex_agent.py:349-357 | the tool contains every error of every expression if and only if no known operator and no whitelisted function raises, on any operands, anything else than the contained exceptions |
| SafeMath.CallEscapesIff | examples/complex_agent.py:99-103 | a call escapes iff the function raises an uncontained exception on the values of its arguments |
| SafeMath.TakesIff | examples/complex_agent.py:53-67 | which functions of the table take one, two, three or more numbers |
| SafeMath.WrongArityEscapes | examples/complex_agent.py:53-67 | under Python's calling convention, a call of a table function with any evaluable arguments of a number it cannot take escapes |
| SafeMath.ToolLeaksIff | examples/complex_agent.py:339-357 | under Python's calling convention, some expression escapes iff the tool is given any function at all or some operator raises an uncontained exception on some operands |
| SafeMath.ComplexRemainderEscapes | examples/complex_agent.py:41-49 | an input without any function: the remainder of a power that is complex escapes when that raises TypeError |
| SafeMath.FittingIsContainedIff | examples/complex_agent.py:86-104 | nothing escapes from any expression whose written calls have fitting numbers of arguments, iff the operators raise only contained exceptions and so do the functions on fitting numbers of arguments |
| OrderStatistics.Measure | benchmarks/framework_overhead.py:47-71 | for two or more iterations every index is in bounds and the figures are those of the sorted samples; with fewer it raises |
| OrderStatistics.SortAscends | benchmarks/framework_overhead.py:62-62 | the samples are sorted and permuted |
| OrderStatistics.P95IsAtRank | benchmarks/framework_overhead.py:67-67 | the reported sample is number floor(0.95 n), counted from one |
| OrderStatistics.MedianIs | benchmarks/framework_overhead.py:66-66 | the middle sample of an odd number, the mean of the two middle ones of an even number |
| OrderStatistics.QuartilesAre | benchmarks/framework_overhead.py:63-64 | which samples the two quartiles are, for every number of samples by its remainder modulo four |
| OrderStatistics.SmallestQuartiles | benchmarks/framework_overhead.py:63-64 | with two or three samples they are the smallest and the largest |
| OrderStatistics.FiguresAreOrdered | benchmarks/framework_overhead.py:62-69 | q1 <= median <= q3 <= p95 <= max, from six samples on; the quick mode takes at least 20 (line 189) |
| OrderStatistics.TooFewSamples | benchmarks/framework_overhead.py:62-69 | for two to five distinct samples q3 exceeds the reported p95 |
| OrderStatistics.OrderStatisticsInterlace | benchmarks/framework_overhead.py:48-52 | after one sample is replaced by any value, every order statistic lies between its old neighbours |
| OrderStatistics.MedianIsRobust | benchmarks/framework_overhead.py:48-52 | so the median, for odd and even sizes from four samples on, stays between the neighbours of the old median |
| OrderStatistics.MeanIsNotRobust | benchmarks/framework_overhead.py:50-51 | one sample can put the mean anywhere |
| Cosine.CauchySchwarz | examples/notebook_38_rag_basics.py:91-95 | dot squared is at most the product of the squared norms, for vectors of any two lengths |
| Cosine.CosineInRange | examples/notebook_38_rag_basics.py:91-95 | a similarity lies between -1 and 1 |
| Cosine.DividesByZeroIff | examples/notebook_38_rag_basics.py:93-95 | the helper divides by zero iff one vector is zero |
| Cosine.CosineOfSelf | examples/notebook_38_rag_basics.py:91-95 | a non-zero vector has similarity 1 with itself |
| Cosine.CosineSymmetric | examples/notebook_38_rag_basics.py:91-95 | the similarity is symmetric |
| Cosine.CosineScales | examples/notebook_38_rag_basics.py:91-95 | positive scaling changes the norm but not the similarity |
| Cosine.CosineFlips | examples/notebook_38_rag_basics.py:91-95 | turning a vector round turns the sign of the similarity round |
| Cosine.CosineTimesNorms | examples/notebook_38_rag_basics.py:91-95 | for non-zero vectors the similarity times both norms is the dot product |
| Cosine.DotAppends | examples/notebook_38_rag_basics.py:92-92 | one more component on both sides adds its product, one on one side only adds nothing |
| Cosine.EqualityIffCollinear | examples/notebook_38_rag_basics.py:91-95 | for equal lengths the bound is attained exactly when b is zero or a is a multiple of b |
| OutcomeStore.Store.CheckSeen | examples/notebook_20_advanced_patterns.py:400-406 | known iff a text other than the empty one is stored for the issue |
| OutcomeStore.Store.RecordOutcome | examples/notebook_20_advanced_patterns.py:408-414 | writes the outcome iff the run's check found none, and touches no other issue |
| OutcomeStore.Store.HandleAll | examples/notebook_20_advanced_patterns.py:416-431 | runs one after the other fold the tickets into the store |
| OutcomeStore.TruthyIff | examples/notebook_20_advanced_patterns.py:402-402 | a stored value counts as an outcome exactly if it is a non-empty text |
| OutcomeStore.StoredTextStays | examples/notebook_20_advanced_patterns.py:400-414 | a non-empty text stored for an issue is there after any list of tickets |
| OutcomeStore.EmptyGivesWay | examples/notebook_20_advanced_patterns.py:400-414 | nothing stored, and an empty text, are overwritten by the next ticket |
| OutcomeStore.FirstOutcomeWins | examples/notebook_20_advanced_patterns.py:400-414 | an issue keeps its first non-empty outcome forever; until there is one the last empty one stands |
| OutcomeStore.SilenceClaimsTheIssue | examples/notebook_20_advanced_patterns.py:411-411 | a ticket without an outcome claims the issue as "unresolved"; one with an empty outcome leaves it to the next |
| OutcomeStore.RecordFollowsItsCheck | examples/notebook_20_advanced_patterns.py:400-414 | under any interleaving a run writes iff its own check saw nothing |
| OutcomeStore.OverwriteNeedsStaleCheck | examples/notebook_20_advanced_patterns.py:400-414 | a non-empty outcome is only ever changed by a run on that issue whose check came before the outcome was stored |
| OutcomeStore.FinalIffUnthreatened | examples/notebook_20_advanced_patterns.py:400-414 | a non-empty outcome is final under all continuations iff no run waits to record a different one after an empty check |
| OutcomeStore.IssuesAreIndependent | examples/notebook_20_advanced_patterns.py:400-414 | what happens to an issue is decided by the steps of the runs on that issue |
| OutcomeStore.SerialIsSequential | examples/notebook_20_advanced_patterns.py:400-431 | the trace without interleaving is the sequential fold |
| CoverageRatchet.LoadCurrentCoverage | scripts/coverage_ratchet.py:55-74 | the loop that skips foreign paths and missing figures computes the fold |
| CoverageRatchet.LoadedIsLastWord | scripts/coverage_ratchet.py:55-74 | a path is tracked iff a counted entry names it, with the rounded figure of the last such entry |
| CoverageRatchet.SortedItems | scripts/coverage_ratchet.py:96-96 | the items of the snapshot, each once, in path order |
| CoverageRatchet.Ratchet.Check | scripts/coverage_ratchet.py:90-125 | exit code 0 iff every measured file is within the tolerance of its baseline or, if new, at the floor; the two lists hold exactly the offenders, in path order |
| CoverageRatchet.Ratchet.Update | scripts/coverage_ratchet.py:128-132 | the snapshot becomes the baseline |
| CoverageRatchet.Ratchet.CheckAndUpdate | scripts/coverage_ratchet.py:90-132 | a history of check-and-update cycles succeeds iff every snapshot passes against the one before it; a failing one leaves the last passing baseline |
| CoverageRatchet.UpdateThenCheckIff | scripts/coverage_ratchet.py:90-132 | after an update the same snapshot passes iff the tolerance is not negative or it is empty |
| CoverageRatchet.RaisingKeepsPassing | scripts/coverage_ratchet.py:96-107 | raising coverage of the same files keeps a pass |
| CoverageRatchet.DroppingKeepsPassing | scripts/coverage_ratchet.py:96-107 | leaving files out of the report keeps a pass |
| CoverageRatchet.DriftIsBounded | scripts/coverage_ratchet.py:90-132 | after n passing check-and-update cycles a file present throughout lost at most n tolerances, or n - 1 below the floor if it was new |
| CoverageRatchet.DriftIsAttained | scripts/coverage_ratchet.py:90-132 | that bound is reached, for every n |
| CoverageRatchet.ReturningFileStartsAfresh | scripts/coverage_ratchet.py:97-107 | after any passing history, for any path and any other files that pass: one more cycle passes iff the path is within the tolerance of the last snapshot or, if that missed it, at the floor for new files, however high it was before |
| Reducers.ApplyReducers | src/tulip/core/reducers.py:399-433 | the loop over the update, in any key order, gives the specified merge |
| Reducers.FieldsAreIndependent | src/tulip/core/reducers.py:399-433 | along a chain of nodes every field evolves by its own writes and its own reducer |
| Reducers.StartCountsAsWrite | src/tulip/core/reducers.py:424-431 | a value present from the start counts like a first write |
| Reducers.UniqueAppend | examples/notebook_18_state_reducers.py:241-248 | the append loop is the specified fold |
| Reducers.ExtendedIsDedupe | examples/notebook_18_state_reducers.py:241-248 | from a list without repetitions: first-occurrence deduplication of the concatenation |
| Reducers.UniqueAppendAssociative | examples/notebook_18_state_reducers.py:241-248 | associative on all lists |
| Reducers.UniqueAppendIdempotent | examples/notebook_18_state_reducers.py:241-248 | idempotent on all lists |
| Reducers.UniqueFieldIsDedupeIff | examples/notebook_18_state_reducers.py:250-253 | the field is the deduplication of all writes iff the first write had no repetition |
| Reducers.UniqueFieldIgnoresOrder | examples/notebook_18_state_reducers.py:250-253 | as a set it is the union of the writes, in any order |
| Reducers.MaxFieldIsLargestIff | examples/notebook_18_state_reducers.py:236-239 | the field is the largest write iff there was more than one or the only one was not None |
| Reducers.MaxFieldIsAtLeastZeroIff | examples/notebook_18_state_reducers.py:250-252 | the default 0 is a lower bound iff the field is not a lone None and some write is None or not negative |
| Reducers.NegativesStayNegative | examples/notebook_18_state_reducers.py:236-239 | an input: the writes -5 and -3 leave -3 |
| Reducers.RepetitionStays | examples/notebook_18_state_reducers.py:241-248 | an input: a first write [1, 1] stays as it is |
| Reducers.MaxFieldIgnoresOrder | examples/notebook_18_state_reducers.py:236-239 | the order of the writes does not matter |

## Left out

- Engine.Execute: does not model `interrupt_before` and `interrupt_after`, checkpointers, streaming, node caching, conditions, retries and timeouts, subgraphs, nor the success flag, outputs and durations of the result. The history parameter stands for the execution order of the earlier calls of a driver.
- Engine.AttemptAll: concurrency inside a frontier is not modelled, because the nodes of a frontier all read the same state and their results are merged in frontier order.
- Engine.Settle: the bookkeeping keys `_node_...` and `__resume_node__` are not part of the state; the interrupted node is a component of the result. Sends are carried out by the workflow's commit function.
- PauseResume.AgreesIff: that questions make no difference is a condition on the points the run passes (`Harmless`), given by `AlikeIff` for each frontier; where one does make a difference, `DriveIsPerCall` says what happens instead.
- CoverageRatchet.Ratchet.CheckAndUpdate: the script has no such loop; the method repeats its two commands, a refresh after every pass.
- PauseResume.Answer: the drivers of notebooks 64 and 65 have no bound on resumes; that theirs terminate is proved separately (`DriveReview`, `DriveNegotiation`).
- ContractNegotiation.ReviewOne: how bulleted lines are found in a text is not modelled; any text with any bullets may be a reply. The clauses, the note appended to them and the agents' prompts are left out.
- BlockerLedger.FreshSlotsAccumulate: that the runtime never draws an identifier twice is a hypothesis (`FreshIds`); it draws eight random hexadecimal digits.
- BlockerLedger.ReusedAlwaysConserved: describes identifiers the runtime does not use, to show what the duplication is due to.
- ApprovalLadder.LadderTheorem: starts from a state without earlier approvals, as the driver does; a missing score, which the source reads as 0, is not a separate case.
- IncidentRunbook.NoUnapprovedCriticalMitigation: the investigators' fan-out and the prompt texts are left out; lower-casing and splitting of the reply happen before the first word the model starts from.
- HumanInLoop.ReleasedIffApproved: pattern C, which stores the paused result and resumes it later, is the same pair of calls and is left out.
- CriticLoop.DraftCount: upper-casing is that of ASCII letters; the grounding gate does not influence the loop and is left out.
- Debate.DebateTranscript: the alert text and the stripping of replies are part of the advocate function.
- Failures.FailingRunIsCutShort: whether a node raises is a function of the node, its state and its answers. The prose agents of the critic loop and the agent of the escalation graph fail in this form only.
- CycleCheck.Dfs: the two sets that the nested function shares are passed along and returned. Nodes are not added here, and edges given to the constructor, which are not checked, are left out.
- SafeMath.WrongArityEscapes: the numbers of arguments are those of the twelve functions of the table for numeric arguments; that Python raises TypeError for any other number is a hypothesis.
- BoundedRetry.Emit: the pauses between attempts and the error texts are left out.
- TriageReport.Synthesize: lines are kept as a list and not joined; the iteration counts inside an analysis are left out. A value that has an "analysis" of any other kind than a Send's result or the tickets dictionary is not modelled.
- SafeMath.Conservative: parsing is left out, so expressions are trees; arithmetic, including its overflow and complex results, is a parameter.
- OrderStatistics.Measure: clock, warm-up and garbage collection are left out; figures are exact reals before rounding, and `int(n * 0.95)` is taken exactly.
- Cosine.CosineInRange: norms are exact square roots over the reals, given by their defining equation; rounding can put the floating-point result slightly outside the interval.
- OutcomeStore.Store.HandleAll: `check_seen` and `record_outcome` are atomic steps, as the store's lock makes them; versions and timestamps of store items, and the other nodes of the notebook, are left out.
- CoverageRatchet.LoadCurrentCoverage: the report is a list of entries with already classified paths, and rounding is a parameter; reading and writing the JSON files, missing files and malformed figures are left out.
- CoverageRatchet.Ratchet.Check: the printed messages are left out; figures are exact reals.
- Reducers.ApplyReducers: the built-in reducers (`add_messages`, `merge_dict` and others) are left out.
- The swarm, router, event bus, admission gate, audit chain, evidence scoring, vector stores, model providers and protocol servers of the framework are not modelled: their interest lies in I/O or in many easy cases.
- The one-branch classifiers of notebooks 27, 45 and 70, the Command routers of notebook 20 and the smaller drivers of notebook 19 would only add easy members.
