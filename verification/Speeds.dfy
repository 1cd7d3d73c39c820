/** How fast the slots are that serve, and hence the slots that rotations drain. */
module Speeds {
  import opened Base
  import opened WanSpec
  import opened World
  import opened Cycle
  import opened CycleLaws
  import opened Runs
  import Lifecycle

  /** Every serving slot was at least `min` fast when it was filled. */
  ghost predicate AllFast(slots: seq<Slot>, min: real) {
    forall i :: 0 <= i < |slots| && slots[i].Serving() ==> slots[i].speed >= min
  }

  lemma FewerStaysFast(before: seq<Slot>, after: seq<Slot>, min: real)
    requires AllFast(before, min) && Fewer(before, after)
    ensures AllFast(after, min)
  {
  }

  lemma TriedFast(s: Sys, p: Params, t: Trial)
    requires AllFast(s.slots, p.minimumSpeed) && Empties(s.slots) != [] && Passes(p, t)
    ensures AllFast(Tried(s, p, t).slots, p.minimumSpeed)
  {
    var i := Empties(s.slots)[0];
    assert forall j :: 0 <= j < |s.slots| && j != i ==> Tried(s, p, t).slots[j] == s.slots[j];
  }

  lemma {:induction false} FillFast(s: Sys, p: Params, trials: seq<Trial>, tested: nat)
    requires AllFast(s.slots, p.minimumSpeed)
    ensures AllFast(Fill(s, p, trials, tested).sys.slots, p.minimumSpeed)
    decreases |trials|
  {
    if trials != [] {
      var m := TryOne(s, p, trials[0], tested);
      if m.sys != s { TriedFast(s, p, trials[0]); }
      if !m.stop { FillFast(m.sys, p, trials[1..], tested + |m.result|); }
    }
  }

  lemma {:induction false} StartupFast(s: Sys, p: Params, trials: seq<Trial>)
    requires AllFast(s.slots, p.minimumSpeed)
    ensures AllFast(StartupFill(s, p, trials).slots, p.minimumSpeed)
    decreases |trials|
  {
    if trials != [] {
      var m := TryAtStartup(s, p, trials[0]);
      if m.sys != s { TriedFast(s, p, trials[0]); }
      if !m.stop { StartupFast(m.sys, p, trials[1..]); }
    }
  }

  lemma SweepFast(s: Sys, min: real, now: int, grace: int, alive: set<Handle>)
    requires AllFast(s.slots, min)
    ensures AllFast(Swept(s, now, grace, alive).slots, min)
  {
    forall i: nat | i < |s.slots| && Swept(s, now, grace, alive).slots[i].Serving()
      ensures Swept(s, now, grace, alive).slots[i].speed >= min
    {
      Lifecycle.SweptExactly(s, now, grace, alive, i);
    }
  }

  lemma StepFast(w: World, p: Params, step: Step)
    requires AllFast(w.sys.slots, p.minimumSpeed) && !step.DropSlot?
    ensures AllFast(After(w, p, step).sys.slots, p.minimumSpeed)
  {
    match step
    case Startup(trials) =>
      StartupFast(w.sys, p, trials);
      var f := StartupFill(w.sys, p, trials);
      ResetAllFewer(f, ByState(f.slots, {Testing}));
    case RunCycle(now, grace, alive, trials, later, kept) =>
      SweepFast(w.sys, p.minimumSpeed, now, grace, alive);
      var f := Fill(Swept(w.sys, now, grace, alive), p, trials, 0);
      FillFast(Swept(w.sys, now, grace, alive), p, trials, 0);
      FewerStaysFast(f.sys.slots, Rotated(f.sys.slots, p, f.results, later), p.minimumSpeed);
    case Keepalive(probes) =>
      FewerStaysFast(w.sys.slots, After(w, p, step).sys.slots, p.minimumSpeed);
    case Shutdown(now) =>
      var d := DrainFirst(w.sys, |w.sys.slots|, now);
      ResetFirstFewer(d, |d.slots|);
  }

  /** In runs without drops every serving slot is at or above the minimum speed. */
  lemma {:induction false} RunsStayFast(n: nat, p: Params, steps: seq<Step>)
    requires forall k :: 0 <= k < |steps| ==> !steps[k].DropSlot?
    ensures AllFast(Run(Fresh(n), p, steps).sys.slots, p.minimumSpeed)
    decreases |steps|
  {
    if steps != [] {
      RunsStayFast(n, p, steps[..|steps| - 1]);
      StepFast(Run(Fresh(n), p, steps[..|steps| - 1]), p, steps[|steps| - 1]);
    }
  }

  /** So there no slot at or above the minimum speed is drained by a cycle exactly when
      the cycle rotates nothing: unless all slots end active and some entry tested in it
      passed, failed to start, and is served nowhere. */
  lemma FastAreKeptIff(n: nat, p: Params, steps: seq<Step>, now: int, grace: int, alive: set<Handle>,
                       trials: seq<Trial>)
    requires p.wanCount == n > 0 && forall k :: 0 <= k < |steps| ==> !steps[k].DropSlot?
    ensures var s := Swept(Run(Fresh(n), p, steps).sys, now, grace, alive);
      var f := Fill(s, p, trials, 0);
      var i := RotationTarget(f.sys.slots, p, f.results);
      && (i != -1 ==> f.sys.slots[i].speed >= p.minimumSpeed)
      && (!(i != -1 && f.sys.slots[i].speed >= p.minimumSpeed) <==>
            !((forall j :: 0 <= j < |f.sys.slots| ==> f.sys.slots[j].state.Active?)
              && exists j :: FailedStart(s, p, trials, j, f.sys.slots)))
  {
    var w := Run(Fresh(n), p, steps);
    Lifecycle.RunsStaySettled(n, p, steps);
    RunsStayFast(n, p, steps);
    SweepFast(w.sys, p.minimumSpeed, now, grace, alive);
    Lifecycle.SweptSettles(w.sys, now, grace, alive);
    FillFast(Swept(w.sys, now, grace, alive), p, trials, 0);
    RotationIffFailedStart(Swept(w.sys, now, grace, alive), p, trials);
  }
}
