/** The per-file coverage ratchet: read a report, compare it with a baseline, refresh the baseline. */
module CoverageRatchet {
  import opened Prelude
  import opened Sorting

  /** A path in the coverage report: relative, absolute below the repository root, or absolute elsewhere. */
  datatype RawPath = Relative(path: string) | BelowRoot(path: string) | Elsewhere

  datatype FileReport = FileReport(raw: RawPath, percent: Option<real>)

  /** Line coverage by repository-relative path. */
  type Snapshot = map<string, real>

  predicate Counts(f: FileReport) { !f.raw.Elsewhere? && f.percent.Some? }

  function Loaded(files: seq<FileReport>, round: real -> real): Snapshot {
    if files == [] then map[]
    else
      var out, f := Loaded(files[..|files| - 1], round), files[|files| - 1];
      if Counts(f) then out[f.raw.path := round(f.percent.value)] else out
  }

  method LoadCurrentCoverage(files: seq<FileReport>, round: real -> real) returns (out: Snapshot)
    ensures out == Loaded(files, round)
  {
    out := map[];
    for i := 0 to |files|
      invariant out == Loaded(files[..i], round)
    {
      assert files[..i + 1][..i] == files[..i];
      if files[i].raw.Elsewhere? { continue; }
      if files[i].percent.None? { continue; }
      out := out[files[i].raw.path := round(files[i].percent.value)];
    }
    assert files[..|files|] == files;
  }

  /** The entry names the path, relative or absolute below the repository root. */
  ghost predicate Names(f: FileReport, path: string) { f.raw == Relative(path) || f.raw == BelowRoot(path) }

  /** Entry i is the last one that says anything about the path. */
  ghost predicate LastWord(files: seq<FileReport>, path: string, i: int) {
    && 0 <= i < |files| && Names(files[i], path) && files[i].percent.Some?
    && forall j | i < j < |files| :: !(Names(files[j], path) && files[j].percent.Some?)
  }

  /** A path is tracked iff some counted entry names it, and its figure is that of the last such entry,
    * whether the entry spelled the path relative or absolute.
    */
  lemma {:induction false} LoadedIsLastWord(files: seq<FileReport>, round: real -> real, path: string)
    ensures path in Loaded(files, round) <==> exists i :: LastWord(files, path, i)
    ensures forall i | LastWord(files, path, i) :: Loaded(files, round)[path] == round(files[i].percent.value)
  {
    if files != [] {
      var front, n := files[..|files| - 1], |files| - 1;
      LoadedIsLastWord(front, round, path);
      if Names(files[n], path) && files[n].percent.Some? {
        assert LastWord(files, path, n);
      } else {
        forall i ensures LastWord(files, path, i) <==> LastWord(front, path, i) {
          if LastWord(front, path, i) {
            forall j | i < j < |files| ensures !(Names(files[j], path) && files[j].percent.Some?) {
              if j < n { assert files[j] == front[j]; }
            }
          }
          if LastWord(files, path, i) {
            forall j | i < j < |front| ensures !(Names(front[j], path) && front[j].percent.Some?) {
              assert files[j] == front[j];
            }
          }
        }
      }
    }
  }

  // ----- the check -----

  /** The slack that keeps a new file exactly at the floor from failing: one billionth. */
  const EPSILON := 0.000000001

  predicate Regressed(baseline: Snapshot, path: string, pct: real, tolerance: real) {
    path in baseline && pct + tolerance < baseline[path]
  }

  predicate NewBelowFloor(baseline: Snapshot, path: string, pct: real, minNew: real) {
    path !in baseline && pct + EPSILON < minNew
  }

  /** What a passing check promises about every measured file. */
  ghost predicate Passes(baseline: Snapshot, current: Snapshot, tolerance: real, minNew: real) {
    forall path | path in current ::
      current[path] >= if path in baseline then baseline[path] - tolerance else minNew - 0.000000001
  }

  ghost predicate Least(paths: set<string>, p: string) {
    p in paths && forall q | q in paths :: Leq(p, q)
  }

  lemma {:induction false} LeastExists(paths: set<string>)
    requires paths != {}
    ensures exists p :: Least(paths, p)
    decreases |paths|
  {
    hide Leq;
    var x :| x in paths;
    var rest := paths - {x};
    LeqReflexive(x);
    assert forall q | q in paths :: q == x || q in rest;
    if rest == {} {
      assert Least(paths, x);
    } else {
      LeastExists(rest);
      var p :| Least(rest, p);
      LeqTotal(x, p);
      if Leq(x, p) {
        forall q | q in rest ensures Leq(x, q) { LeqTransitive(x, p, q); }
        assert Least(paths, x);
      } else {
        assert Least(paths, p);
      }
    }
  }

  type Item = (string, real)

  ghost predicate ByPath(items: seq<(string, real)>) {
    forall i, j | 0 <= i < j < |items| :: items[i].0 != items[j].0 && Leq(items[i].0, items[j].0)
  }

  /** `sorted(current.items())`: the paths of a dict differ, so their order decides. */
  method SortedItems(current: Snapshot) returns (items: seq<Item>)
    ensures ByPath(items)
    ensures forall item :: item in items <==> item.0 in current && current[item.0] == item.1
  {
    items := [];
    var rest := current.Keys;
    while rest != {}
      invariant rest <= current.Keys
      invariant ByPath(items)
      invariant forall item :: item in items <==> item.0 in current.Keys - rest && current[item.0] == item.1
      invariant forall i, p | 0 <= i < |items| && p in rest :: Leq(items[i].0, p)
      decreases |rest|
    {
      hide Leq;
      LeastExists(rest);
      var path :| path in rest && forall q | q in rest :: Leq(path, q);
      forall i | 0 <= i < |items| ensures items[i].0 != path { assert items[i] in items; }
      items := items + [(path, current[path])];
      rest := rest - {path};
    }
  }

  type Regression = (string, real, real)

  ghost predicate RegressionsByPath(rs: seq<(string, real, real)>) {
    forall i, j | 0 <= i < j < |rs| :: rs[i].0 != rs[j].0 && Leq(rs[i].0, rs[j].0)
  }

  /** `regressions` and `newBelowFloor` hold exactly the files that fail their test. */
  ghost predicate Reports(
      baseline: Snapshot, current: Snapshot, tolerance: real, minNew: real,
      regressions: seq<Regression>, newBelowFloor: seq<Item>)
  {
    && (forall r ::
          r in regressions
          <==> && r.0 in current && Regressed(baseline, r.0, current[r.0], tolerance)
               && r == (r.0, baseline[r.0], current[r.0]))
    && (forall item ::
          item in newBelowFloor
          <==> && item.0 in current && NewBelowFloor(baseline, item.0, current[item.0], minNew)
               && item.1 == current[item.0])
  }

  lemma PassesIffNothingToReport(
      baseline: Snapshot, current: Snapshot, tolerance: real, minNew: real,
      regressions: seq<Regression>, newBelowFloor: seq<Item>)
    requires Reports(baseline, current, tolerance, minNew, regressions, newBelowFloor)
    ensures Passes(baseline, current, tolerance, minNew) <==> regressions == [] && newBelowFloor == []
  {
    if regressions != [] {
      assert regressions[0] in regressions;
    } else if newBelowFloor != [] {
      assert newBelowFloor[0] in newBelowFloor;
    } else {
      forall path | path in current
        ensures current[path] >= if path in baseline then baseline[path] - tolerance else minNew - 0.000000001
      {
        if path in baseline {
          assert (path, baseline[path], current[path]) !in regressions;
        } else {
          assert (path, current[path]) !in newBelowFloor;
        }
      }
    }
  }

  class Ratchet {
    /** The contents of the baseline file; absent means empty. */
    var baseline: Snapshot

    constructor ()
      ensures baseline == map[]
    {
      baseline := map[];
    }

    /** The exit code, and the two lists that are printed in path order. */
    method Check(current: Snapshot, tolerance: real, minNew: real)
      returns (code: int, regressions: seq<Regression>, newBelowFloor: seq<Item>)
      ensures code == 0 <==> Passes(baseline, current, tolerance, minNew)
      ensures code == 1 <==> !Passes(baseline, current, tolerance, minNew)
      ensures Reports(baseline, current, tolerance, minNew, regressions, newBelowFloor)
      ensures RegressionsByPath(regressions) && ByPath(newBelowFloor)
    {
      var items := SortedItems(current);
      regressions, newBelowFloor := [], [];
      for i := 0 to |items|
        invariant forall r ::
          r in regressions <==>
          (r.0, r.2) in items[..i] && Regressed(baseline, r.0, r.2, tolerance) && r.1 == baseline[r.0]
        invariant forall item ::
          item in newBelowFloor <==> item in items[..i] && NewBelowFloor(baseline, item.0, item.1, minNew)
        invariant RegressionsByPath(regressions) && ByPath(newBelowFloor)
      {
        hide Leq;
        var (path, pct) := items[i];
        assert items[..i + 1] == items[..i] + [items[i]];
        if path !in baseline {
          if pct + EPSILON < minNew {
            newBelowFloor := newBelowFloor + [(path, pct)];
          }
          continue;
        }
        if pct + tolerance < baseline[path] {
          regressions := regressions + [(path, baseline[path], pct)];
        }
      }
      assert items[..|items|] == items;
      code := if regressions != [] || newBelowFloor != [] then 1 else 0;
      PassesIffNothingToReport(baseline, current, tolerance, minNew, regressions, newBelowFloor);
    }

    /** Whatever was measured becomes the baseline, higher or lower. */
    method Update(current: Snapshot)
      modifies this
      ensures baseline == current
    {
      baseline := current;
    }

    /** A history of check-and-update cycles: refresh after every pass, stop at the first failure. */
    method CheckAndUpdate(history: seq<Snapshot>, tolerance: real, minNew: real) returns (ok: bool, passed: nat)
      modifies this
      ensures ok <==> AllPass(old(baseline), history, tolerance, minNew)
      ensures passed <= |history| && (ok <==> passed == |history|)
      ensures AllPass(old(baseline), history[..passed], tolerance, minNew)
      ensures baseline == BaselineAfter(old(baseline), history[..passed])
      ensures !ok ==> !Passes(baseline, history[passed], tolerance, minNew)
    {
      passed := 0;
      while passed < |history|
        invariant passed <= |history|
        invariant AllPass(old(baseline), history[..passed], tolerance, minNew)
        invariant baseline == BaselineAfter(old(baseline), history[..passed])
      {
        hide Passes, Reports;
        assert history[..passed + 1][..passed] == history[..passed];
        var code, regressions, newBelowFloor := Check(history[passed], tolerance, minNew);
        if code != 0 {
          if AllPass(old(baseline), history, tolerance, minNew) {
            AllPassPrefix(old(baseline), history, passed + 1, tolerance, minNew);
          }
          return false, passed;
        }
        Update(history[passed]);
        passed := passed + 1;
      }
      assert history[..passed] == history;
      ok := true;
    }
  }

  // ----- one check -----

  /** MAIN RESULT: refreshing the baseline makes the same snapshot pass exactly if the tolerance is not negative
    * (or nothing was measured).
    */
  lemma UpdateThenCheckIff(current: Snapshot, tolerance: real, minNew: real)
    ensures Passes(current, current, tolerance, minNew) <==> tolerance >= 0.0 || current == map[]
  {
    if current != map[] {
      var path :| path in current;
    }
  }

  /** Raising coverage of the same files never turns a pass into a failure. */
  lemma RaisingKeepsPassing(baseline: Snapshot, current: Snapshot, better: Snapshot, tolerance: real, minNew: real)
    requires Passes(baseline, current, tolerance, minNew) && better.Keys == current.Keys
    requires forall path | path in current :: better[path] >= current[path]
    ensures Passes(baseline, better, tolerance, minNew)
  {
    forall path | path in better
      ensures better[path] >= if path in baseline then baseline[path] - tolerance else minNew - 0.000000001
    {
      assert path in current.Keys && path in current;
    }
  }

  /** A file that is no longer measured is not looked at: dropping it never fails, whatever it had. */
  lemma DroppingKeepsPassing(baseline: Snapshot, current: Snapshot, gone: set<string>, tolerance: real, minNew: real)
    requires Passes(baseline, current, tolerance, minNew)
    ensures Passes(baseline, current - gone, tolerance, minNew)
  {
    forall path | path in current - gone
      ensures (current - gone)[path] >= if path in baseline then baseline[path] - tolerance else minNew - 0.000000001
    {
      assert path in current;
    }
  }

  // ----- histories -----

  function BaselineAfter(baseline: Snapshot, history: seq<Snapshot>): Snapshot {
    if history == [] then baseline else history[|history| - 1]
  }

  /** Every snapshot passed against the one before it and then became the baseline. */
  ghost predicate AllPass(baseline: Snapshot, history: seq<Snapshot>, tolerance: real, minNew: real) {
    history != [] ==>
      var front := history[..|history| - 1];
      && AllPass(baseline, front, tolerance, minNew)
      && Passes(BaselineAfter(baseline, front), history[|history| - 1], tolerance, minNew)
  }

  lemma {:induction false} AllPassPrefix(
      baseline: Snapshot, history: seq<Snapshot>, k: nat, tolerance: real, minNew: real)
    requires k <= |history| && AllPass(baseline, history, tolerance, minNew)
    ensures AllPass(baseline, history[..k], tolerance, minNew)
  {
    hide Passes;
    if k < |history| {
      AllPassPrefix(baseline, history[..|history| - 1], k, tolerance, minNew);
      assert history[..|history| - 1][..k] == history[..k];
    } else {
      assert history[..k] == history;
    }
  }

  /** Where a file may be after n cycles, the first of which it entered or was already in the baseline. */
  function Floor(baseline: Snapshot, path: string, cycles: nat, tolerance: real, minNew: real): real {
    if path in baseline then baseline[path] - cycles as real * tolerance
    else minNew - 0.000000001 - (cycles as real - 1.0) * tolerance
  }

  /** MAIN RESULT: after n passing check-and-update cycles a file measured in all of them has lost at most n times
    * the tolerance since the first baseline, or n - 1 times if it came in above the floor for new files.
    */
  lemma {:induction false} DriftIsBounded(
      baseline: Snapshot, history: seq<Snapshot>, path: string, tolerance: real, minNew: real)
    requires history != [] && AllPass(baseline, history, tolerance, minNew)
    requires forall i | 0 <= i < |history| :: path in history[i]
    ensures history[|history| - 1][path] >= Floor(baseline, path, |history|, tolerance, minNew)
  {
    var n := |history|;
    var front := history[..n - 1];
    if n > 1 {
      assert front[n - 2] == history[n - 2];
      DriftIsBounded(baseline, front, path, tolerance, minNew);
      FloorStep(baseline, path, n - 1, tolerance, minNew);
    }
  }

  lemma FloorStep(baseline: Snapshot, path: string, n: nat, tolerance: real, minNew: real)
    ensures Floor(baseline, path, n + 1, tolerance, minNew) == Floor(baseline, path, n, tolerance, minNew) - tolerance
  {
    var k := n as real;
    assert (k + 1.0) * tolerance == k * tolerance + tolerance;
  }

  /** The history in which one file keeps losing exactly the tolerance. */
  function Slide(baseline: Snapshot, path: string, cycles: nat, tolerance: real, minNew: real): seq<Snapshot> {
    if cycles == 0 then []
    else
      Slide(baseline, path, cycles - 1, tolerance, minNew)
      + [map[path := Floor(baseline, path, cycles, tolerance, minNew)]]
  }

  /** The bound is reached: every cycle of the slide passes and the file ends at its floor. */
  lemma {:induction false} DriftIsAttained(
      baseline: Snapshot, path: string, cycles: nat, tolerance: real, minNew: real)
    requires cycles > 0
    ensures
      var history := Slide(baseline, path, cycles, tolerance, minNew);
      && |history| == cycles && AllPass(baseline, history, tolerance, minNew)
      && history[cycles - 1] == map[path := Floor(baseline, path, cycles, tolerance, minNew)]
  {
    hide Floor;
    var history := Slide(baseline, path, cycles, tolerance, minNew);
    var front := Slide(baseline, path, cycles - 1, tolerance, minNew);
    assert history[..|history| - 1] == front;
    if cycles == 1 {
      FirstFloor(baseline, path, tolerance, minNew);
    } else {
      DriftIsAttained(baseline, path, cycles - 1, tolerance, minNew);
      FloorStep(baseline, path, cycles - 1, tolerance, minNew);
    }
  }

  lemma FirstFloor(baseline: Snapshot, path: string, tolerance: real, minNew: real)
    ensures
      Floor(baseline, path, 1, tolerance, minNew)
      == if path in baseline then baseline[path] - tolerance else minNew - 0.000000001
  {
  }

  /** MAIN RESULT, after any passing history: one more cycle passes if and only if the path meets a demand that looks at
    * the last snapshot alone. A file that stayed may lose no more than the tolerance; one that the last snapshot missed
    * starts afresh at the floor for new files, however high it was in the baseline and in all snapshots before.
    */
  lemma ReturningFileStartsAfresh(
      baseline: Snapshot, history: seq<Snapshot>, others: Snapshot, path: string, after: real,
      tolerance: real, minNew: real)
    requires AllPass(baseline, history, tolerance, minNew)
    requires Passes(BaselineAfter(baseline, history), others - {path}, tolerance, minNew)
    ensures
      var last := BaselineAfter(baseline, history);
      AllPass(baseline, history + [others[path := after]], tolerance, minNew)
      <==> after >= if path in last then last[path] - tolerance else minNew - 0.000000001
  {
    assert (history + [others[path := after]])[..|history|] == history;
    OneFile(BaselineAfter(baseline, history), others, path, after, tolerance, minNew);
    hide Passes;
  }

  lemma OneFile(prior: Snapshot, others: Snapshot, path: string, pct: real, tolerance: real, minNew: real)
    requires Passes(prior, others - {path}, tolerance, minNew)
    ensures
      Passes(prior, others[path := pct], tolerance, minNew)
      <==> pct >= if path in prior then prior[path] - tolerance else minNew - 0.000000001
  {
    var current := others[path := pct];
    assert path in current && current[path] == pct;
    forall p | p in current && p != path ensures p in others - {path} && current[p] == (others - {path})[p] {}
  }
}
