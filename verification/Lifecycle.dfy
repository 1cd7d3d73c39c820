/** Between the atomic steps of any run no slot is half-prepared, so the laws of the
    fill loop and of the rotation hold for every cycle that ever happens. */
module Lifecycle {
  import opened Base
  import opened WanSpec
  import opened World
  import opened Cycle
  import opened CycleLaws
  import opened Runs

  /** Slots that end in testing only if they began there. */
  ghost predicate Calmer(before: seq<Slot>, after: seq<Slot>) {
    && |after| == |before|
    && forall i :: 0 <= i < |after| && after[i].state.Testing? ==> before[i].state.Testing?
  }

  lemma CalmerStaysSettled(before: seq<Slot>, after: seq<Slot>)
    requires Settled(before) && Calmer(before, after)
    ensures Settled(after)
  {
  }

  /** Draining for at least the grace period, or serving without a live process. */
  ghost predicate Goes(s: Slot, now: int, grace: int, alive: set<Handle>) {
    || (s.state == Draining && s.drainAt.Some? && now - s.drainAt.value >= grace)
    || (s.state in {Active, Draining} && (s.cmd.None? || s.cmd.value !in alive))
  }

  /** The sweep at the start of a cycle clears a slot exactly when its grace period is
      over or its process is dead, and leaves all others alone. */
  lemma SweptExactly(s: Sys, now: int, grace: int, alive: set<Handle>, i: nat)
    requires i < |s.slots|
    ensures Swept(s, now, grace, alive).slots[i]
      == if Goes(s.slots[i], now, grace, alive) then EMPTY_SLOT else s.slots[i]
  {
    var expired := Expired(s.slots, now, grace);
    WhereMembers(s.slots, ExpiredAt(now, grace));
    ResetAllExactly(s, expired, i);
    var s1 := ResetAll(s, expired);
    var dead := DeadOnes(s1.slots, alive);
    WhereMembers(s1.slots, DeadAmong(alive));
    ResetAllExactly(s1, dead, i);
    ResetAllExactly(Reaped(s1, alive), dead, i);
  }

  /** It stops exactly the processes of the slots it clears. */
  lemma SweptStops(s: Sys, now: int, grace: int, alive: set<Handle>, h: Handle)
    ensures h in Swept(s, now, grace, alive).os.live <==>
      && h in s.os.live
      && forall i :: 0 <= i < |s.slots| && Goes(s.slots[i], now, grace, alive) ==> s.slots[i].cmd != Some(h)
  {
    var s1 := ResetAll(s, Expired(s.slots, now, grace));
    var dead := DeadOnes(s1.slots, alive);
    var s2 := ResetAll(s1, dead);
    ResetWhereMeans(s, ExpiredAt(now, grace), h);
    ResetWhereMeans(s1, DeadAmong(alive), h);
    ResetAgain(s1, dead, h);
    TwoSweeps(s.slots, s1.slots, ExpiredAt(now, grace), DeadAmong(alive), h,
              h in s.os.live, h in s1.os.live, h in s2.os.live);
    GoesIff(s.slots, now, grace, alive);
  }

  lemma GoesIff(slots: seq<Slot>, now: int, grace: int, alive: set<Handle>)
    ensures forall i :: 0 <= i < |slots| ==>
      (Goes(slots[i], now, grace, alive) <==> ExpiredAt(now, grace)(slots[i]) || DeadAmong(alive)(slots[i]))
  {
  }

  /** Two sweeps in a row act like one that takes what either takes. */
  lemma TwoSweeps(a: seq<Slot>, b: seq<Slot>, p: Slot -> bool, q: Slot -> bool, h: Handle, in0: bool, in1: bool,
                  in2: bool)
    requires |a| == |b| && !q(EMPTY_SLOT)
    requires forall i :: 0 <= i < |a| ==> b[i] == if p(a[i]) then EMPTY_SLOT else a[i]
    requires in1 <==> in0 && forall i :: 0 <= i < |a| && p(a[i]) ==> a[i].cmd != Some(h)
    requires in2 <==> in1 && forall i :: 0 <= i < |b| && q(b[i]) ==> b[i].cmd != Some(h)
    ensures in2 <==> in0 && forall i :: 0 <= i < |a| && (p(a[i]) || q(a[i])) ==> a[i].cmd != Some(h)
  {
  }

  /** Clearing the slots that satisfy `p` stops the processes they hold. */
  lemma ResetWhereMeans(s: Sys, p: Slot -> bool, h: Handle)
    ensures var s' := ResetAll(s, Where(s.slots, p));
      && (forall i :: 0 <= i < |s.slots| ==> s'.slots[i] == if p(s.slots[i]) then EMPTY_SLOT else s.slots[i])
      && (h in s'.os.live <==>
            h in s.os.live && forall i :: 0 <= i < |s.slots| && p(s.slots[i]) ==> s.slots[i].cmd != Some(h))
  {
    var idxs := Where(s.slots, p);
    WhereMembers(s.slots, p);
    ResetAllStops(s, idxs, h);
    StopsListed(s.slots, idxs, h);
    forall i: nat | i < |s.slots|
      ensures ResetAll(s, idxs).slots[i] == if p(s.slots[i]) then EMPTY_SLOT else s.slots[i]
    {
      ResetAllExactly(s, idxs, i);
    }
  }

  /** Clearing slots a second time stops nothing more. */
  lemma ResetAgain(s: Sys, idxs: seq<nat>, h: Handle)
    requires forall k :: 0 <= k < |idxs| ==> idxs[k] < |s.slots|
    ensures h in ResetAll(ResetAll(s, idxs), idxs).os.live <==> h in ResetAll(s, idxs).os.live
  {
    var s' := ResetAll(s, idxs);
    ResetAllStops(s', idxs, h);
    forall k | 0 <= k < |idxs| ensures s'.slots[idxs[k]].cmd != Some(h) {
      ResetAllExactly(s, idxs, idxs[k]);
    }
  }

  lemma StopsListed(slots: seq<Slot>, idxs: seq<nat>, h: Handle)
    requires forall k :: 0 <= k < |idxs| ==> idxs[k] < |slots|
    ensures (forall k :: 0 <= k < |idxs| ==> slots[idxs[k]].cmd != Some(h))
      <==> forall i: nat :: i < |slots| && i in idxs ==> slots[i].cmd != Some(h)
  {
    if forall i: nat :: i < |slots| && i in idxs ==> slots[i].cmd != Some(h) {
      forall k | 0 <= k < |idxs| ensures slots[idxs[k]].cmd != Some(h) {
        assert idxs[k] in idxs;
      }
    }
  }

  lemma SweptSettles(s: Sys, now: int, grace: int, alive: set<Handle>)
    requires Settled(s.slots)
    ensures Settled(Swept(s, now, grace, alive).slots)
  {
    forall i: nat | i < |s.slots| ensures !Swept(s, now, grace, alive).slots[i].state.Testing? {
      SweptExactly(s, now, grace, alive, i);
    }
  }

  lemma {:induction false} StartupSettles(s: Sys, p: Params, trials: seq<Trial>)
    requires Settled(s.slots)
    ensures Settled(StartupFill(s, p, trials).slots)
    decreases |trials|
  {
    if trials != [] {
      var m := TryAtStartup(s, p, trials[0]);
      if Empties(s.slots) != [] { SettledAfter(s, p, trials[0]); }
      if !m.stop { StartupSettles(m.sys, p, trials[1..]); }
    }
  }

  lemma StartupPassSettles(s: Sys, p: Params, trials: seq<Trial>)
    requires Settled(s.slots)
    ensures Settled(StartupPass(s, p, trials).slots)
  {
    StartupSettles(s, p, trials);
    var f := StartupFill(s, p, trials);
    var testing := ByState(f.slots, {Testing});
    forall i: nat | i < |f.slots| ensures !ResetAll(f, testing).slots[i].state.Testing? {
      ResetAllExactly(f, testing, i);
    }
  }

  lemma DropSettles(w: World, i: nat, base: int, retest: Option<TestResult>, startOk: bool)
    requires Settled(w.sys.slots) && i < |w.sys.slots|
    ensures Settled(Drop(w, i, base, retest, startOk).sys.slots)
  {
  }

  lemma RefillSettles(s: Sys, p: Params, trials: seq<Trial>, later: int)
    requires Settled(s.slots) && p.wanCount == |s.slots|
    ensures var f := Fill(s, p, trials, 0); Settled(Rotated(f.sys.slots, p, f.results, later))
  {
    assert trials[0..] == trials;
    FillIsFirstFit(s, p, trials, 0, 0);
  }

  lemma StepSettles(w: World, p: Params, step: Step)
    requires Settled(w.sys.slots) && p.wanCount == |w.sys.slots|
    ensures Settled(After(w, p, step).sys.slots)
  {
    match step
    case Startup(trials) => StartupPassSettles(w.sys, p, trials);
    case RunCycle(now, grace, alive, trials, later, kept) =>
      SweptSettles(w.sys, now, grace, alive);
      RefillSettles(Swept(w.sys, now, grace, alive), p, trials, later);
    case Keepalive(probes) => CalmerStaysSettled(w.sys.slots, After(w, p, step).sys.slots);
    case DropSlot(i, retest, startOk) =>
      if 0 <= i < |w.sys.slots| { DropSettles(w, i, p.basePort, retest, startOk); }
    case Shutdown(now) =>
      var d := DrainFirst(w.sys, |w.sys.slots|, now);
      CalmerStaysSettled(w.sys.slots, d.slots);
      ResetFirstClears(d, |d.slots|);
  }

  lemma {:induction false} RunsStaySettled(n: nat, p: Params, steps: seq<Step>)
    requires p.wanCount == n
    ensures |Run(Fresh(n), p, steps).sys.slots| == n && Settled(Run(Fresh(n), p, steps).sys.slots)
    decreases |steps|
  {
    if steps != [] {
      RunsStaySettled(n, p, steps[..|steps| - 1]);
      StepSettles(Run(Fresh(n), p, steps[..|steps| - 1]), p, steps[|steps| - 1]);
    }
  }

  /** Every cycle of every run fills by first fit within its budget, and rotates only
      when all slots are active and an entry tested in it passed, failed to start, and
      is served by no slot. */
  lemma EveryCycleIsFirstFit(n: nat, p: Params, steps: seq<Step>, now: int, grace: int, alive: set<Handle>,
                             trials: seq<Trial>)
    requires p.wanCount == n > 0
    ensures var s := Swept(Run(Fresh(n), p, steps).sys, now, grace, alive); var f := Fill(s, p, trials, 0);
      && Fits(s.slots, f, trials, 0, Plan(s, p, trials, 0, 0), if p.maxTestPerCycle > 0 then p.maxTestPerCycle else 20)
      && (RotationTarget(f.sys.slots, p, f.results) != -1 ==>
            && (forall i :: 0 <= i < n ==> f.sys.slots[i].state.Active?)
            && exists j :: FailedStart(s, p, trials, j, f.sys.slots))
  {
    RunsStaySettled(n, p, steps);
    var s := Swept(Run(Fresh(n), p, steps).sys, now, grace, alive);
    SweptSettles(Run(Fresh(n), p, steps).sys, now, grace, alive);
    assert trials[0..] == trials;
    FillIsFirstFit(s, p, trials, 0, 0);
    var f := Fill(s, p, trials, 0);
    if RotationTarget(f.sys.slots, p, f.results) != -1 {
      RotationNeedsFailedStart(s, p, trials);
    }
  }

  /** One cycle on any settled pool: expired and dead slots go; a fetched subscription is
      carried out by first fit; and if then all slots are active and some entry tested in
      this cycle passed, failed to start and is served nowhere, the first least stable
      slot is marked draining. The results become candidates; exclusions stay. */
  lemma CycleMeans(w: World, p: Params, now: int, grace: int, alive: set<Handle>, trials: seq<Trial>, later: int,
                   kept: seq<TestResult>)
    requires Settled(w.sys.slots) && p.wanCount == |w.sys.slots| > 0
    ensures var w', s := After(w, p, RunCycle(now, grace, alive, trials, later, kept)), Swept(w.sys, now, grace, alive);
      && (forall i: nat :: i < |w.sys.slots| ==>
            s.slots[i] == if Goes(w.sys.slots[i], now, grace, alive) then EMPTY_SLOT else w.sys.slots[i])
      && w'.excluded == w.excluded
      && (trials == [] ==> w'.sys == s && w'.candidates == w.candidates)
      && (trials != [] ==> w'.candidates == kept && exists filled :: Cycled(s, p, trials, later, filled, w'.sys.slots))
  {
    forall i: nat | i < |w.sys.slots|
      ensures Swept(w.sys, now, grace, alive).slots[i]
        == if Goes(w.sys.slots[i], now, grace, alive) then EMPTY_SLOT else w.sys.slots[i]
    {
      SweptExactly(w.sys, now, grace, alive, i);
    }
    SweptSettles(w.sys, now, grace, alive);
    RefillMeans(Swept(w.sys, now, grace, alive), p, trials, later);
  }

  /** From the swept pool `s` to `filled` by first fit, and on to `after` by at most one
      drain mark. */
  ghost predicate Cycled(s: Sys, p: Params, trials: seq<Trial>, later: int, filled: seq<Slot>, after: seq<Slot>)
    requires 0 < |s.slots|
  {
    var budget := if p.maxTestPerCycle > 0 then p.maxTestPerCycle else 20;
    && CarriedOut(s.slots, filled, trials, FirstFit(trials, 0, Empties(s.slots), Endpoints(s.slots), p, budget))
    && if (forall i :: 0 <= i < |filled| ==> filled[i].state == Active)
          && exists j :: FailedStart(s, p, trials, j, filled)
       then exists i: nat ::
         Churns(filled, i) && after == filled[i := filled[i].(state := Draining, drainAt := Some(later))]
       else after == filled
  }

  lemma RefillMeans(s: Sys, p: Params, trials: seq<Trial>, later: int)
    requires Settled(s.slots) && p.wanCount == |s.slots| > 0
    ensures var f := Fill(s, p, trials, 0);
      Cycled(s, p, trials, later, f.sys.slots, Rotated(f.sys.slots, p, f.results, later))
  {
    assert trials[0..] == trials;
    FillIsFirstFit(s, p, trials, 0, 0);
    RotationIffFailedStart(s, p, trials);
    var f := Fill(s, p, trials, 0);
    if RotationTarget(f.sys.slots, p, f.results) != -1 {
      TargetChurns(f.sys.slots, p, f.results);
    }
  }
}
