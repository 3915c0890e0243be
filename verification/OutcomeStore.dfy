/** A store that outlives a run: `check_seen` reads the last outcome of an issue, `record_outcome`
  * writes one when the check found none. The two nodes of one run are separate steps, so runs interleave.
  */
module OutcomeStore {
  import opened Prelude

  /** A stored value; Python's None is `Nothing`. */
  datatype Value = Nothing | Text(text: string)

  /** `observed` is None when the ticket does not carry an observed outcome at all. */
  datatype Ticket = Ticket(issue: string, observed: Option<Value>)

  predicate Truthy(v: Value) { v.Text? && v.text != "" }

  function Unresolved(): Value { Text("unresolved") }

  function Outcome(t: Ticket): Value {
    if t.observed.Some? then t.observed.value else Unresolved()
  }

  /** A value counts as an outcome exactly if it is a text that is not empty. */
  lemma TruthyIff(v: Value)
    ensures Truthy(v) <==> exists text :: text != "" && v == Text(text)
  {
    if v.Text? { assert v == Text(v.text); }
  }

  type Data = map<string, Value>

  function Lookup(data: Data, issue: string): Value {
    if issue in data then data[issue] else Nothing
  }

  function Recorded(data: Data, t: Ticket, known: bool): Data {
    if known then data else data[t.issue := Outcome(t)]
  }

  /** One run of the graph on its own. */
  function Handled(data: Data, t: Ticket): Data {
    Recorded(data, t, Truthy(Lookup(data, t.issue)))
  }

  function HandledAll(data: Data, ts: seq<Ticket>): Data {
    if ts == [] then data else Handled(HandledAll(data, ts[..|ts| - 1]), ts[|ts| - 1])
  }

  class Store {
    var data: Data

    constructor ()
      ensures data == map[]
    {
      data := map[];
    }

    method Get(issue: string) returns (v: Value)
      ensures v == Lookup(data, issue)
    {
      v := if issue in data then data[issue] else Nothing;
    }

    method Put(issue: string, v: Value)
      modifies this
      ensures data == old(data)[issue := v]
    {
      data := data[issue := v];
    }

    /** True iff some run already left a non-empty outcome. */
    method CheckSeen(issue: string) returns (known: bool)
      ensures known <==> exists text :: text != "" && issue in data && data[issue] == Text(text)
    {
      var outcome := Get(issue);
      known := Truthy(outcome);
      TruthyIff(outcome);
    }

    method RecordOutcome(t: Ticket, known: bool)
      modifies this
      ensures data == Recorded(old(data), t, known)
    {
      if !known {
        Put(t.issue, Outcome(t));
      }
    }

    /** Runs one after the other, each to its end before the next begins. */
    method HandleAll(ts: seq<Ticket>)
      modifies this
      ensures data == HandledAll(old(data), ts)
    {
      for i := 0 to |ts|
        invariant data == HandledAll(old(data), ts[..i])
      {
        TruthyIff(Lookup(data, ts[i].issue));
        var known := CheckSeen(ts[i].issue);
        RecordOutcome(ts[i], known);
        assert ts[..i + 1][..i] == ts[..i];
      }
      assert ts[..|ts|] == ts;
    }
  }

  // ----- runs in sequence -----

  /** The outcomes reported for one issue, in order. */
  function Reported(ts: seq<Ticket>, issue: string): seq<Value> {
    if ts == [] then []
    else Reported(ts[..|ts| - 1], issue) + if ts[|ts| - 1].issue == issue then [Outcome(ts[|ts| - 1])] else []
  }

  ghost predicate FirstTruthy(vs: seq<Value>, k: int) {
    0 <= k < |vs| && Truthy(vs[k]) && forall i | 0 <= i < k :: !Truthy(vs[i])
  }

  /** `now` is what is left of `was` after the outcomes vs were offered in order. */
  ghost predicate FirstWins(was: Value, vs: seq<Value>, now: Value) {
    && (Truthy(was) ==> now == was)
    && (!Truthy(was) ==> forall k | FirstTruthy(vs, k) :: now == vs[k])
    && (!Truthy(was) && (forall v | v in vs :: !Truthy(v)) ==> now == if vs == [] then was else vs[|vs| - 1])
  }

  lemma {:induction false} FirstExists(vs: seq<Value>)
    ensures (exists k :: FirstTruthy(vs, k)) || forall v | v in vs :: !Truthy(v)
  {
    if vs != [] {
      hide Truthy;
      var front, n := vs[..|vs| - 1], |vs| - 1;
      FirstExists(front);
      if k :| FirstTruthy(front, k) {
        assert FirstTruthy(vs, k);
      } else if Truthy(vs[n]) {
        forall i | 0 <= i < n ensures !Truthy(vs[i]) { assert vs[i] in front; }
        assert FirstTruthy(vs, n);
      } else {
        forall v | v in vs ensures !Truthy(v) { assert v in front || v == vs[n]; }
      }
    }
  }

  lemma FirstOfLonger(vs: seq<Value>, v: Value, k: int)
    requires FirstTruthy(vs + [v], k)
    ensures if k < |vs| then FirstTruthy(vs, k) else k == |vs| && forall x | x in vs :: !Truthy(x)
  {
    hide Truthy;
    var ws := vs + [v];
    forall i | 0 <= i < |vs| ensures vs[i] == ws[i] {}
  }

  lemma OneMoreOffer(was: Value, vs: seq<Value>, now: Value, v: Value)
    requires FirstWins(was, vs, now)
    ensures FirstWins(was, vs + [v], if Truthy(now) then now else v)
  {
    hide Truthy;
    var ws, kept := vs + [v], if Truthy(now) then now else v;
    if !Truthy(was) {
      FirstExists(vs);
      forall k | FirstTruthy(ws, k) ensures kept == ws[k] {
        FirstOfLonger(vs, v, k);
      }
      if forall x | x in ws :: !Truthy(x) {
        forall x | x in vs ensures !Truthy(x) { assert x in ws; }
      }
    }
  }

  /** MAIN RESULT: an issue keeps its first non-empty outcome forever; until there is one, the last empty one stands. */
  lemma {:induction false} FirstOutcomeWins(data: Data, ts: seq<Ticket>, issue: string)
    ensures FirstWins(Lookup(data, issue), Reported(ts, issue), Lookup(HandledAll(data, ts), issue))
  {
    if ts != [] {
      hide FirstWins, Truthy, Outcome;
      var front, t := ts[..|ts| - 1], ts[|ts| - 1];
      FirstOutcomeWins(data, front, issue);
      var vs := Reported(front, issue);
      if t.issue == issue {
        OneMoreOffer(Lookup(data, issue), vs, Lookup(HandledAll(data, front), issue), Outcome(t));
      } else {
        assert Reported(ts, issue) == vs;
      }
    } else {
      assert Reported(ts, issue) == [];
    }
  }

  /** In plain values: a stored text that is not empty stays whatever comes; None and the empty text give way to the
    * next ticket on the issue, which leaves what it observed, or "unresolved" if it observed nothing.
    */
  lemma StoredTextStays(data: Data, ts: seq<Ticket>, issue: string, text: string)
    requires issue in data && data[issue] == Text(text) && text != ""
    ensures Lookup(HandledAll(data, ts), issue) == Text(text)
  {
    hide HandledAll, Reported;
    TruthyIff(Text(text));
    FirstOutcomeWins(data, ts, issue);
  }

  lemma EmptyGivesWay(data: Data, t: Ticket)
    requires t.issue !in data || data[t.issue] == Nothing || data[t.issue] == Text("")
    ensures HandledAll(data, [t])
         == data[t.issue := if t.observed.Some? then t.observed.value else Text("unresolved")]
  {
    TruthyIff(Lookup(data, t.issue));
    assert [t][..0] == [];
    assert HandledAll(data, []) == data;
  }

  /** A ticket that reports nothing claims the issue for good as "unresolved"; one that reports an empty outcome
    * leaves it to the next.
    */
  lemma SilenceClaimsTheIssue(data: Data, issue: string, empty: Value, later: Value)
    requires !Truthy(Lookup(data, issue)) && !Truthy(empty)
    ensures Lookup(HandledAll(data, [Ticket(issue, None), Ticket(issue, Some(later))]), issue) == Text("unresolved")
    ensures Lookup(HandledAll(data, [Ticket(issue, Some(empty)), Ticket(issue, Some(later))]), issue) == later
  {
    forall first: Ticket, second: Ticket
      ensures HandledAll(data, [first, second]) == Handled(Handled(data, first), second)
    {
      assert [first, second][..1] == [first] && [first][..0] == [];
      assert HandledAll(data, [first]) == Handled(data, first);
    }
  }

  // ----- runs in parallel -----

  datatype Phase = Fresh | Checked(known: bool) | Finished

  /** Run number i handles ticket number i. */
  datatype World = World(data: Data, phase: seq<Phase>)

  function Start(data: Data, n: nat): World { World(data, seq(n, _ => Fresh)) }

  /** The next step of one run; a run that has finished, or does not exist, does nothing. */
  function Step(ts: seq<Ticket>, w: World, i: nat): (w': World)
    requires |w.phase| == |ts|
    ensures |w'.phase| == |ts|
  {
    if i >= |ts| then w
    else
      match w.phase[i]
      case Fresh => w.(phase := w.phase[i := Checked(Truthy(Lookup(w.data, ts[i].issue)))])
      case Checked(known) => World(Recorded(w.data, ts[i], known), w.phase[i := Finished])
      case Finished => w
  }

  /** The world after the runs took steps in the order of the trace. */
  function Exec(ts: seq<Ticket>, w: World, trace: seq<nat>): (w': World)
    requires |w.phase| == |ts|
    ensures |w'.phase| == |ts|
  {
    if trace == [] then w else Step(ts, Exec(ts, w, trace[..|trace| - 1]), trace[|trace| - 1])
  }

  function At(ts: seq<Ticket>, w: World, trace: seq<nat>, p: nat): (w': World)
    requires |w.phase| == |ts| && p <= |trace|
    ensures |w'.phase| == |ts|
  {
    Exec(ts, w, trace[..p])
  }

  lemma AtNext(ts: seq<Ticket>, w: World, trace: seq<nat>, p: nat)
    requires |w.phase| == |ts| && p < |trace|
    ensures At(ts, w, trace, p + 1) == Step(ts, At(ts, w, trace, p), trace[p])
  {
    assert trace[..p + 1][..p] == trace[..p];
  }

  lemma {:induction false} OtherStepsKeepPhase(ts: seq<Ticket>, w: World, trace: seq<nat>, i: nat, q: nat, p: nat)
    requires |w.phase| == |ts| && i < |ts| && q <= p <= |trace|
    requires forall k | q <= k < p :: trace[k] != i
    ensures At(ts, w, trace, q).phase[i] == At(ts, w, trace, p).phase[i]
    decreases p
  {
    if q < p {
      hide At;
      OtherStepsKeepPhase(ts, w, trace, i, q, p - 1);
      AtNext(ts, w, trace, p - 1);
    }
  }

  /** MAIN RESULT: whether a run writes depends only on what its own check saw, however long ago that was. */
  lemma RecordFollowsItsCheck(ts: seq<Ticket>, w: World, trace: seq<nat>, i: nat, q: nat, p: nat)
    requires |w.phase| == |ts| && i < |ts| && q < p < |trace| && trace[q] == i == trace[p]
    requires forall k | q < k < p :: trace[k] != i
    requires At(ts, w, trace, q).phase[i] == Fresh
    ensures
      var seen := Truthy(Lookup(At(ts, w, trace, q).data, ts[i].issue));
      At(ts, w, trace, p + 1).data == Recorded(At(ts, w, trace, p).data, ts[i], seen)
  {
    hide At;
    AtNext(ts, w, trace, q);
    OtherStepsKeepPhase(ts, w, trace, i, q + 1, p);
    AtNext(ts, w, trace, p);
  }

  /** The position of the check behind a run's present phase. */
  lemma {:induction false} CheckedSometime(ts: seq<Ticket>, data: Data, trace: seq<nat>, i: nat, p: nat)
    returns (q: nat)
    requires i < |ts| && p <= |trace| && At(ts, Start(data, |ts|), trace, p).phase[i].Checked?
    ensures q < p && trace[q] == i && At(ts, Start(data, |ts|), trace, q).phase[i] == Fresh
    ensures
      At(ts, Start(data, |ts|), trace, p).phase[i].known
      <==> Truthy(Lookup(At(ts, Start(data, |ts|), trace, q).data, ts[i].issue))
    decreases p
  {
    var w := Start(data, |ts|);
    assert p > 0;
    hide At;
    AtNext(ts, w, trace, p - 1);
    if trace[p - 1] == i {
      q := p - 1;
    } else {
      q := CheckedSometime(ts, data, trace, i, p - 1);
    }
  }

  /** MAIN RESULT: a step that changes a non-empty outcome is the record of a run on that very issue whose
    * check came before the outcome was there: the outcome was absent then, so it was stored in between.
    */
  lemma OverwriteNeedsStaleCheck(ts: seq<Ticket>, data: Data, trace: seq<nat>, p: nat, issue: string)
    returns (q: nat)
    requires p < |trace|
    requires Truthy(Lookup(At(ts, Start(data, |ts|), trace, p).data, issue))
    requires
      Lookup(At(ts, Start(data, |ts|), trace, p + 1).data, issue)
      != Lookup(At(ts, Start(data, |ts|), trace, p).data, issue)
    ensures q < p && trace[q] == trace[p] < |ts| && ts[trace[p]].issue == issue
    ensures !Truthy(Lookup(At(ts, Start(data, |ts|), trace, q).data, issue))
    ensures forall r | 0 <= r < p && StoodSince(ts, data, trace, issue, r, p) :: q < r
  {
    var w := Start(data, |ts|);
    hide At;
    AtNext(ts, w, trace, p);
    q := CheckedSometime(ts, data, trace, trace[p], p);
    AtNext(ts, w, trace, q);
    forall r | 0 <= r < p && StoodSince(ts, data, trace, issue, r, p) ensures q < r {
      assert q + 1 <= p;
    }
  }

  /** The outcome the issue has before step p is the one it had ever since step r was taken. */
  ghost predicate StoodSince(ts: seq<Ticket>, data: Data, trace: seq<nat>, issue: string, r: int, p: nat)
    requires 0 <= r && p <= |trace|
  {
    forall k | r < k <= p ::
      Lookup(At(ts, Start(data, |ts|), trace, k).data, issue) == Lookup(At(ts, Start(data, |ts|), trace, p).data, issue)
  }

  /** A run on the issue that has checked, found nothing, and has yet to record something else than v. */
  ghost predicate Threatens(ts: seq<Ticket>, w: World, issue: string, v: Value, i: nat)
    requires |w.phase| == |ts|
  {
    i < |ts| && ts[i].issue == issue && w.phase[i] == Checked(false) && Outcome(ts[i]) != v
  }

  lemma {:induction false} UnthreatenedStays(ts: seq<Ticket>, w: World, trace: seq<nat>, issue: string)
    requires |w.phase| == |ts| && Truthy(Lookup(w.data, issue))
    requires forall i: nat :: !Threatens(ts, w, issue, Lookup(w.data, issue), i)
    ensures Lookup(Exec(ts, w, trace).data, issue) == Lookup(w.data, issue)
    ensures forall i: nat :: !Threatens(ts, Exec(ts, w, trace), issue, Lookup(w.data, issue), i)
  {
    if trace != [] {
      hide Truthy, Outcome;
      var v, j, w1 := Lookup(w.data, issue), trace[|trace| - 1], Exec(ts, w, trace[..|trace| - 1]);
      UnthreatenedStays(ts, w, trace[..|trace| - 1], issue);
      assert !Threatens(ts, w1, issue, v, j);
      forall i: nat ensures !Threatens(ts, Exec(ts, w, trace), issue, v, i) {
        assert !Threatens(ts, w1, issue, v, i);
      }
    }
  }

  lemma ThreatCanStrike(ts: seq<Ticket>, w: World, issue: string, v: Value, i: nat)
    requires |w.phase| == |ts| && Threatens(ts, w, issue, v, i)
    ensures exists trace: seq<nat> :: Lookup(Exec(ts, w, trace).data, issue) != v
  {
    var trace: seq<nat> := [i];
    assert Exec(ts, w, trace[..0]) == w;
    assert Lookup(Exec(ts, w, trace).data, issue) == Outcome(ts[i]);
  }

  /** MAIN RESULT: a non-empty outcome is final, whatever the runs do next, if and only if no run is waiting
    * to record a different one after a check that found nothing.
    */
  lemma FinalIffUnthreatened(ts: seq<Ticket>, w: World, issue: string)
    requires |w.phase| == |ts| && Truthy(Lookup(w.data, issue))
    ensures
      (forall trace: seq<nat> :: Lookup(Exec(ts, w, trace).data, issue) == Lookup(w.data, issue))
      <==> (forall i: nat :: !Threatens(ts, w, issue, Lookup(w.data, issue), i))
  {
    var v := Lookup(w.data, issue);
    if forall i: nat :: !Threatens(ts, w, issue, v, i) {
      forall trace: seq<nat> ensures Lookup(Exec(ts, w, trace).data, issue) == v {
        UnthreatenedStays(ts, w, trace, issue);
      }
    } else {
      var i: nat :| Threatens(ts, w, issue, v, i);
      ThreatCanStrike(ts, w, issue, v, i);
    }
  }

  // ----- runs on other issues -----

  /** The steps of the runs on one issue. */
  function Only(ts: seq<Ticket>, trace: seq<nat>, issue: string): seq<nat> {
    if trace == [] then []
    else
      var i := trace[|trace| - 1];
      Only(ts, trace[..|trace| - 1], issue) + if i < |ts| && ts[i].issue == issue then [i] else []
  }

  ghost predicate AgreeOn(ts: seq<Ticket>, w: World, w': World, issue: string)
    requires |w.phase| == |ts| == |w'.phase|
  {
    && Lookup(w.data, issue) == Lookup(w'.data, issue)
    && forall i | 0 <= i < |ts| && ts[i].issue == issue :: w.phase[i] == w'.phase[i]
  }

  lemma StepAgrees(ts: seq<Ticket>, w: World, w': World, i: nat, issue: string)
    requires |w.phase| == |ts| == |w'.phase| && AgreeOn(ts, w, w', issue)
    ensures AgreeOn(ts, Step(ts, w, i), if i < |ts| && ts[i].issue == issue then Step(ts, w', i) else w', issue)
  {
    hide Truthy, Outcome;
  }

  /** MAIN RESULT: what happens to an issue is decided by the runs on that issue alone. */
  lemma {:induction false} IssuesAreIndependent(ts: seq<Ticket>, w: World, trace: seq<nat>, issue: string)
    requires |w.phase| == |ts|
    ensures AgreeOn(ts, Exec(ts, w, trace), Exec(ts, w, Only(ts, trace, issue)), issue)
  {
    if trace != [] {
      hide Step, AgreeOn;
      var front, i := trace[..|trace| - 1], trace[|trace| - 1];
      IssuesAreIndependent(ts, w, front, issue);
      var mine := Only(ts, front, issue);
      StepAgrees(ts, Exec(ts, w, front), Exec(ts, w, mine), i, issue);
      if i < |ts| && ts[i].issue == issue {
        assert Only(ts, trace, issue) == mine + [i];
        assert (mine + [i])[..|mine|] == mine;
      } else {
        assert Only(ts, trace, issue) == mine;
      }
    }
  }

  // ----- no interleaving -----

  /** Every run records right after its check. */
  function Serial(n: nat): seq<nat> {
    if n == 0 then [] else Serial(n - 1) + [n - 1, n - 1]
  }

  ghost predicate FirstFinished(w: World, n: nat) {
    n <= |w.phase| && forall i | 0 <= i < |w.phase| :: w.phase[i] == if i < n then Finished else Fresh
  }

  lemma CheckThenRecord(ts: seq<Ticket>, w: World, i: nat)
    requires |w.phase| == |ts| && i < |ts| && w.phase[i] == Fresh
    ensures Step(ts, Step(ts, w, i), i) == World(Handled(w.data, ts[i]), w.phase[i := Finished])
  {
    hide Truthy, Outcome;
    assert w.phase[i := Checked(Truthy(Lookup(w.data, ts[i].issue)))][i := Finished] == w.phase[i := Finished];
  }

  /** MAIN RESULT: without interleaving the steps amount to the runs handled one after the other. */
  lemma {:induction false} SerialIsSequential(ts: seq<Ticket>, data: Data, n: nat)
    requires n <= |ts|
    ensures Exec(ts, Start(data, |ts|), Serial(n)).data == HandledAll(data, ts[..n])
    ensures FirstFinished(Exec(ts, Start(data, |ts|), Serial(n)), n)
  {
    if n > 0 {
      hide Step, Handled;
      var w, before, i := Start(data, |ts|), Serial(n - 1), n - 1;
      SerialIsSequential(ts, data, n - 1);
      var both := before + [i, i];
      assert both[..|both| - 1] == before + [i];
      assert (before + [i])[..|before|] == before;
      CheckThenRecord(ts, Exec(ts, w, before), i);
      assert ts[..n][..i] == ts[..i];
    }
  }
}
