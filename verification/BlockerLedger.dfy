/** Where blockers go: the ledger `blockers_resolved` + `open_blockers` along a negotiation. */
module BlockerLedger {
  import opened Prelude
  import opened Engine
  import opened Failures
  import opened PauseResume
  import Retry = BoundedRetry
  import opened ContractNegotiation

  // ----- the ledger of every reachable state, whatever the Send identifiers -----

  /** What holds whenever stage `n` is about to run. Nothing is open on entry to `synthesize`. */
  ghost predicate Inv(w: World, n: Stage, s: State) {
    && Ledger(s) == Cumulative(w, s.rounds)
    && (s.rounds >= 2 ==> !NothingLanded(w))
    && match n
       case Parse => s.open == [] && s.slots == SlotsAfter(w, s.rounds) && (s.rounds >= 1 ==> !NothingLanded(w))
       case Scatter => s.open == [] && s.slots == SlotsAfter(w, s.rounds) && (s.rounds >= 1 ==> !NothingLanded(w))
       case Synthesize =>
         s.open == [] && s.slots == SlotsAfter(w, s.rounds + 1) && (s.rounds >= 1 ==> !NothingLanded(w))
       case Negotiate => s.open != [] && s.slots == SlotsAfter(w, s.rounds) && !NothingLanded(w)
       case _ => true
  }

  lemma OneMoreRound(w: World, k: nat)
    ensures SlotsAfter(w, k + 1) == FanOut(w, k, SlotsAfter(w, k))
    ensures Cumulative(w, k + 1) == Cumulative(w, k) + OpenAt(w, k + 1)
  {
  }

  /** One completed stage, answered with `x` if it asks: the new state and the stage after it. */
  function Advance(w: World, n: Stage, s: State, x: string): (State, Stage) {
    match n
    case Parse => (s, Scatter)
    case Scatter => (s.(slots := FanOut(w, s.rounds, s.slots)), Synthesize)
    case Synthesize =>
      var s' := s.(open := BlockersOf(s.slots), rounds := s.rounds + 1);
      (s', NegotiationGate(s'))
    case Negotiate => (Responded(s, x), if Classify(x) == Redlines then Parse else SignOff)
    case SignOff => (if Retry.Delivers(w.signOff) then s.(outcome := Some(OutcomeOf(s))) else s, END)
    case END => (s, END)
  }

  lemma AdvanceIsDirect(w: World, n: Stage, s: State, a: nat -> string, i: nat, left: nat, log: seq<Stage>)
    requires 0 < left && n != END
    ensures var (s', m) := Advance(w, n, s, a(i));
            Direct(Review(w), s, [n], a, i, left, log)
            == if m == END
               then Trace(s', if Retry.Delivers(w.signOff) then AtEnd else Drained,
                          UsedBy(Review(w), s, n, i), log + [n])
               else Direct(Review(w), s', [m], a, UsedBy(Review(w), s, n, i), left - 1, log + [n])
  {
    hide Direct, DirectSweep, FanOut, BlockersOf;
    var (s', m) := Advance(w, n, s, a(i));
    if n == SignOff {
      SignOffStep(w, s, a, i, left, log);
    } else {
      DirectStep(Review(w), s, n, a, i, left, log, s', m);
    }
  }

  lemma SynthesizeKeepsInv(w: World, s: State)
    requires Inv(w, Synthesize, s)
    ensures var (s', m) := Advance(w, Synthesize, s, ""); Inv(w, m, s')
  {
    OneMoreRound(w, s.rounds);
    OpenIffSomethingLanded(w, 1);
    assert Ledger(s) == s.resolved;
    hide SlotsAfter, Cumulative, FanOut, BlockersOf;
    assert Advance(w, Synthesize, s, "").0.open == OpenAt(w, s.rounds + 1);
  }

  lemma NegotiateKeepsInv(w: World, s: State, x: string)
    requires Inv(w, Negotiate, s)
    ensures var (s', m) := Advance(w, Negotiate, s, x); Inv(w, m, s')
  {
    hide SlotsAfter, Cumulative, Classify;
    assert s.resolved + s.open + [] == Ledger(s);
  }

  /** Every stage, under every answer, leads from its invariant to its successor's. */
  lemma AdvanceKeepsInv(w: World, n: Stage, s: State, x: string)
    requires Inv(w, n, s) && n != END
    ensures var (s', m) := Advance(w, n, s, x); Inv(w, m, s')
  {
    match n
    case Synthesize => SynthesizeKeepsInv(w, s);
    case Negotiate => NegotiateKeepsInv(w, s, x);
    case Scatter => OneMoreRound(w, s.rounds);
    case _ =>
  }

  lemma {:induction false} LedgerFrom(
      w: World, n: Stage, s: State, a: nat -> string, i: nat, left: nat, log: seq<Stage>)
    requires Inv(w, n, s) && n != END
    ensures var s' := Direct(Review(w), s, [n], a, i, left, log).state;
            Ledger(s') == Cumulative(w, s'.rounds) && (s'.rounds >= 2 ==> !NothingLanded(w))
    decreases left
  {
    hide SlotsAfter, Cumulative, FanOut, BlockersOf;
    if left > 0 {
      var (s', m) := Advance(w, n, s, a(i));
      AdvanceIsDirect(w, n, s, a, i, left, log);
      AdvanceKeepsInv(w, n, s, a(i));
      if m != END {
        LedgerFrom(w, m, s', a, UsedBy(Review(w), s, n, i), left - 1, log + [n]);
      }
    }
  }

  /** The state after at most `left` stages of a negotiation. */
  function Reached(w: World, text: string, a: nat -> string, left: nat): State {
    Direct(Review(w), Initial(text), Review(w).start, a, 0, left, []).state
  }

  /** MAIN RESULT: the ledger is the concatenation of every round's open list. */
  lemma LedgerIsCumulative(w: World, text: string, a: nat -> string, left: nat)
    ensures Ledger(Reached(w, text, a, left)) == Cumulative(w, Reached(w, text, a, left).rounds)
    ensures Reached(w, text, a, left).rounds >= 2 ==> !NothingLanded(w)
  {
    LedgerFrom(w, Parse, Initial(text), a, 0, left, []);
  }

  /** So is the ledger of a negotiation in which any node raises, be it upon what counsel responds. */
  lemma FailingLedgerIsCumulative(
      w: World, text: string, fails: (Stage, State, seq<string>) -> bool, a: nat -> string, left: nat)
    ensures
      var s := Direct(Failing(Review(w), fails), Initial(text), [Parse], a, 0, left, []).state;
      Ledger(s) == Cumulative(w, s.rounds)
  {
    hide Direct, Ledger, Cumulative;
    ReviewIsSequential(w);
    var failure := FailingRunIsCutShort(Review(w), fails, Initial(text), [Parse], a, 0, left, []);
    LedgerIsCumulative(w, text, a, if failure.Some? then failure.value.0 else left);
  }

  // ----- what the reviewers raised, round by round -----

  function RaisedBy(w: World, round: nat, p: Perspective): seq<string> {
    match w.reply(round, p)
    case None => []
    case Some(reply) => ReviewOne(p, reply).blockers
  }

  function RaisedIn(w: World, round: nat): seq<string> {
    RaisedBy(w, round, Legal) + RaisedBy(w, round, Governance) + RaisedBy(w, round, Compliance)
  }

  /** Every blocker of the first `k` rounds, in the order they were raised. */
  function EverRaised(w: World, k: nat): seq<string> {
    if k == 0 then [] else EverRaised(w, k - 1) + RaisedIn(w, k - 1)
  }

  ghost predicate Conserved(w: World, s: State) { Ledger(s) == EverRaised(w, s.rounds) }

  lemma {:induction false} BlockersOfAppend(x: seq<Slot>, y: seq<Slot>)
    ensures BlockersOf(x + y) == BlockersOf(x) + BlockersOf(y)
  {
    if x == [] {
      assert x + y == y;
    } else {
      assert (x + y)[1..] == x[1..] + y;
      BlockersOfAppend(x[1..], y);
    }
  }

  predicate HasId(slots: seq<Slot>, id: int) { exists i | 0 <= i < |slots| :: slots[i].id == id }

  lemma {:induction false} PutAppends(slots: seq<Slot>, id: int, f: Finding)
    requires !HasId(slots, id)
    ensures Put(slots, id, f) == slots + [Slot(id, f)]
  {
    if slots != [] {
      assert slots[0].id != id;
      assert forall i | 0 <= i < |slots[1..]| :: slots[1..][i] == slots[i + 1];
      PutAppends(slots[1..], id, f);
    }
  }

  /** Identifiers as the runtime draws them: never the same one twice. */
  ghost predicate FreshIds(w: World) {
    forall r, p, r', p' :: w.sendId(r, p) == w.sendId(r', p') ==> r == r' && p == p'
  }

  /** `id` belongs to one of the first `m` Sends of the run, three to a round. */
  ghost predicate Drawn(w: World, id: int, m: nat) {
    exists r: nat, p :: 3 * r + Rank(p) < m && id == w.sendId(r, p)
  }

  ghost predicate AllDrawn(w: World, slots: seq<Slot>, m: nat) {
    forall i | 0 <= i < |slots| :: Drawn(w, slots[i].id, m)
  }

  lemma LandAppends(w: World, k: nat, p: Perspective, slots: seq<Slot>)
    requires FreshIds(w) && AllDrawn(w, slots, 3 * k + Rank(p))
    ensures BlockersOf(Land(w, k, p, slots)) == BlockersOf(slots) + RaisedBy(w, k, p)
    ensures AllDrawn(w, Land(w, k, p, slots), 3 * k + Rank(p) + 1)
  {
    var m := 3 * k + Rank(p);
    forall i | 0 <= i < |slots| ensures Drawn(w, slots[i].id, m + 1) {
      assert Drawn(w, slots[i].id, m);
    }
    match w.reply(k, p)
    case None =>
    case Some(reply) =>
      var id, f := w.sendId(k, p), ReviewOne(p, reply);
      assert Drawn(w, id, m + 1);
      forall i | 0 <= i < |slots| ensures slots[i].id != id {
        assert Drawn(w, slots[i].id, m);
      }
      PutAppends(slots, id, f);
      BlockersOfAppend(slots, [Slot(id, f)]);
      assert BlockersOf([Slot(id, f)]) == f.blockers by { assert [Slot(id, f)][1..] == []; }
  }

  lemma FreshRound(w: World, k: nat, slots: seq<Slot>)
    requires FreshIds(w) && AllDrawn(w, slots, 3 * k)
    ensures BlockersOf(FanOut(w, k, slots)) == BlockersOf(slots) + RaisedIn(w, k)
    ensures AllDrawn(w, FanOut(w, k, slots), 3 * (k + 1))
  {
    hide Land, BlockersOf, RaisedBy, AllDrawn;
    var s1 := Land(w, k, Legal, slots);
    var s2 := Land(w, k, Governance, s1);
    LandAppends(w, k, Legal, slots);
    LandAppends(w, k, Governance, s1);
    LandAppends(w, k, Compliance, s2);
    var b, x, y, z := BlockersOf(slots), RaisedBy(w, k, Legal), RaisedBy(w, k, Governance), RaisedBy(w, k, Compliance);
    assert b + x + y + z == b + (x + y + z);
  }

  /** With fresh identifiers no slot is ever overwritten: a round finds open what it and all earlier rounds raised. */
  lemma {:induction false} FreshSlotsAccumulate(w: World, k: nat)
    requires FreshIds(w)
    ensures OpenAt(w, k) == EverRaised(w, k) && AllDrawn(w, SlotsAfter(w, k), 3 * k)
  {
    hide SlotsAfter, EverRaised, OpenAt, AllDrawn, FreshIds;
    if k > 0 {
      FreshSlotsAccumulate(w, k - 1);
      FreshStep(w, k - 1);
    } else {
      FreshStart(w);
    }
  }

  lemma FreshStart(w: World)
    ensures OpenAt(w, 0) == EverRaised(w, 0) && AllDrawn(w, SlotsAfter(w, 0), 0)
  {
    hide FanOut, RaisedIn;
  }

  lemma FreshStep(w: World, k: nat)
    requires FreshIds(w) && OpenAt(w, k) == EverRaised(w, k) && AllDrawn(w, SlotsAfter(w, k), 3 * k)
    ensures OpenAt(w, k + 1) == EverRaised(w, k + 1) && AllDrawn(w, SlotsAfter(w, k + 1), 3 * (k + 1))
  {
    hide SlotsAfter, FanOut, EverRaised, AllDrawn, BlockersOf, RaisedIn, FreshIds, Cumulative;
    FreshRound(w, k, SlotsAfter(w, k));
    OneMoreRound(w, k);
    OneMoreRaised(w, k);
  }

  lemma OneMoreRaised(w: World, k: nat)
    ensures EverRaised(w, k + 1) == EverRaised(w, k) + RaisedIn(w, k)
  {
  }

  lemma {:induction false} CumulativeOutgrows(w: World, k: nat)
    requires k >= 1
    ensures |Cumulative(w, k)| >= |OpenAt(w, k)|
    ensures k >= 2 ==> |Cumulative(w, k)| >= |OpenAt(w, 1)| + |OpenAt(w, k)|
  {
    if k > 1 {
      CumulativeOutgrows(w, k - 1);
    }
  }

  /** MAIN RESULT: conservation with the runtime's own identifiers. It holds exactly up to the first redline,
    * because the next round collects the old slots once more.
    */
  lemma FreshConservedIff(w: World, text: string, a: nat -> string, left: nat)
    requires FreshIds(w)
    ensures var s := Reached(w, text, a, left); Conserved(w, s) <==> s.rounds <= 1
  {
    var s := Reached(w, text, a, left);
    LedgerIsCumulative(w, text, a, left);
    FreshSlotsAccumulate(w, s.rounds);
    if s.rounds >= 2 {
      CumulativeOutgrows(w, s.rounds);
      OpenIffSomethingLanded(w, 1);
      assert |OpenAt(w, 1)| > 0;
    } else if s.rounds == 1 {
      assert Cumulative(w, 0) == [];
      assert [] + OpenAt(w, 1) == OpenAt(w, 1);
    }
  }

  /** The same condition before the run, for a whole negotiation: conservation is lost exactly when a reviewer of the
    * first round comes back and counsel's first response is a redline.
    */
  lemma NegotiationConservedIff(w: World, text: string, a: nat -> string)
    requires FreshIds(w)
    ensures Conserved(w, Negotiated(w, text, a).state)
            <==> (forall p :: w.reply(0, p).None?) || StartsWith(a(0), "WALK") || StartsWith(a(0), "RESOLVED")
  {
    hide Direct, Conserved, StartsWith;
    NegotiationOutcome(w, text, a);
    FreshConservedIff(w, text, a, 20);
    NothingLandedIff(w);
  }

  lemma OneGapEachIsFresh()
    ensures FreshIds(OneGapEach()) && OneGapEach().reply(0, Legal).Some?
  {
    var w := OneGapEach();
    forall r: nat, p, r': nat, p' | w.sendId(r, p) == w.sendId(r', p') ensures r == r' && p == p' {
      assert 3 * r + Rank(p) == 3 * r' + Rank(p');
    }
  }

  /** A first redline is enough there: the ledger counts a blocker twice. */
  lemma LedgerRepeats(text: string, a: nat -> string)
    requires a(0) == "new clause"
    ensures !Conserved(OneGapEach(), Negotiated(OneGapEach(), text, a).state)
  {
    hide Conserved, Direct, OneGapEach, FreshIds;
    OneGapEachIsFresh();
    assert a(0)[0] == 'n';
    NewTextIsRedline(a(0));
    hide StartsWith;
    NegotiationConservedIff(OneGapEach(), text, a);
  }

  lemma {:induction false} CumulativeElements(w: World, k: nat, b: string)
    requires FreshIds(w)
    ensures b in Cumulative(w, k) <==> b in EverRaised(w, k)
  {
    hide FreshIds, OpenAt, SlotsAfter, AllDrawn, RaisedIn, Cumulative, EverRaised;
    if k > 0 {
      CumulativeElements(w, k - 1, b);
      FreshSlotsAccumulate(w, k);
      OneMoreRound(w, k - 1);
      OneMoreRaised(w, k - 1);
    } else {
      NothingRaisedYet(w);
    }
  }

  lemma NothingRaisedYet(w: World)
    ensures Cumulative(w, 0) == [] && EverRaised(w, 0) == []
  {
  }

  /** Nothing is lost and nothing is invented, though entries repeat. */
  lemma FreshLedgerElements(w: World, text: string, a: nat -> string, left: nat, b: string)
    requires FreshIds(w)
    ensures var s := Reached(w, text, a, left); b in Ledger(s) <==> b in EverRaised(w, s.rounds)
  {
    LedgerIsCumulative(w, text, a, left);
    CumulativeElements(w, Reached(w, text, a, left).rounds, b);
  }

  // ----- what reusing the identifiers would give -----

  /** Every round writes the same three slots and no reviewer ever fails. */
  ghost predicate ReusedIds(w: World) {
    && (forall r, p :: w.sendId(r, p) == w.sendId(0, p))
    && (forall p, p' :: w.sendId(0, p) == w.sendId(0, p') ==> p == p')
    && (forall r, p :: w.reply(r, p).Some?)
  }

  function SlotOf(w: World, round: nat, p: Perspective): Slot
    requires w.reply(round, p).Some?
  {
    Slot(w.sendId(round, p), ReviewOne(p, w.reply(round, p).value))
  }

  lemma {:induction false} ReusedSlotsOverwrite(w: World, k: nat)
    requires ReusedIds(w) && k >= 1
    ensures SlotsAfter(w, k) == [SlotOf(w, k - 1, Legal), SlotOf(w, k - 1, Governance), SlotOf(w, k - 1, Compliance)]
  {
    hide Put, ReviewOne;
    var r := k - 1;
    var x, y, z := SlotOf(w, r, Legal), SlotOf(w, r, Governance), SlotOf(w, r, Compliance);
    assert x.id == w.sendId(0, Legal) && y.id == w.sendId(0, Governance) && z.id == w.sendId(0, Compliance);
    if k == 1 {
      PutThree([], x, y, z);
    } else {
      ReusedSlotsOverwrite(w, k - 1);
      var x', y', z' := SlotOf(w, r - 1, Legal), SlotOf(w, r - 1, Governance), SlotOf(w, r - 1, Compliance);
      assert x'.id == w.sendId(0, Legal) && y'.id == w.sendId(0, Governance) && z'.id == w.sendId(0, Compliance);
      PutThree([x', y', z'], x, y, z);
    }
  }

  /** Three distinct keys written to an empty dictionary, or over the same three keys. */
  lemma PutThree(old3: seq<Slot>, x: Slot, y: Slot, z: Slot)
    requires x.id != y.id && y.id != z.id && x.id != z.id
    requires old3 == [] || (|old3| == 3 && old3[0].id == x.id && old3[1].id == y.id && old3[2].id == z.id)
    ensures Put(Put(Put(old3, x.id, x.finding), y.id, y.finding), z.id, z.finding) == [x, y, z]
  {
    hide Put;
    if old3 == [] {
      PutAfter([], x);
      PutAfter([x], y);
      PutAfter([x, y], z);
      assert [] + [x] == [x] && [x] + [y] == [x, y] && [x, y] + [z] == [x, y, z];
    } else {
      var p, q, r := old3[0], old3[1], old3[2];
      assert old3 == [] + [p] + [q, r];
      PutOver([], p, [q, r], x);
      assert [] + [x] + [q, r] == [x] + [q] + [r];
      PutOver([x], q, [r], y);
      assert [x] + [y] + [r] == [x, y] + [r] + [];
      PutOver([x, y], r, [], z);
      assert [x, y] + [z] + [] == [x, y, z];
    }
  }

  lemma PutAfter(slots: seq<Slot>, x: Slot)
    requires !HasId(slots, x.id)
    ensures Put(slots, x.id, x.finding) == slots + [x]
  {
    PutAppends(slots, x.id, x.finding);
  }

  lemma {:induction false} PutOver(pre: seq<Slot>, was: Slot, post: seq<Slot>, x: Slot)
    requires !HasId(pre, x.id) && was.id == x.id
    ensures Put(pre + [was] + post, x.id, x.finding) == pre + [x] + post
  {
    var slots := pre + [was] + post;
    if pre == [] {
      assert slots[1..] == post;
    } else {
      assert pre[0].id != x.id;
      assert forall i | 0 <= i < |pre[1..]| :: pre[1..][i] == pre[i + 1];
      PutOver(pre[1..], was, post, x);
      assert slots[1..] == pre[1..] + [was] + post;
    }
  }

  lemma {:induction false} ReusedCumulative(w: World, k: nat)
    requires ReusedIds(w)
    ensures Cumulative(w, k) == EverRaised(w, k)
  {
    if k > 0 {
      hide SlotsAfter, ReviewOne, BlockersOf;
      ReusedCumulative(w, k - 1);
      ReusedSlotsOverwrite(w, k);
      ThreeSlots(SlotOf(w, k - 1, Legal), SlotOf(w, k - 1, Governance), SlotOf(w, k - 1, Compliance));
    }
  }

  lemma ThreeSlots(x: Slot, y: Slot, z: Slot)
    ensures BlockersOf([x, y, z]) == x.finding.blockers + y.finding.blockers + z.finding.blockers
  {
    assert [x, y, z][1..] == [y, z] && [y, z][1..] == [z] && [z][1..] == [];
    assert BlockersOf([z]) == z.finding.blockers;
    assert BlockersOf([y, z]) == y.finding.blockers + z.finding.blockers;
  }

  /** If each round's slots replaced the last round's, every reachable state would conserve its blockers. */
  lemma ReusedAlwaysConserved(w: World, text: string, a: nat -> string, left: nat)
    requires ReusedIds(w)
    ensures Conserved(w, Reached(w, text, a, left))
  {
    LedgerIsCumulative(w, text, a, left);
    ReusedCumulative(w, Reached(w, text, a, left).rounds);
  }
}
