/** Whole runs: any sequence of startup passes, cycles, keepalive passes, drops and
    shutdowns, each atomic, with arbitrary test, start, probe and death outcomes. */
module Runs {
  import opened Base
  import opened WanSpec
  import opened Candidates
  import opened Protocols
  import opened World
  import opened Cycle
  import Text

  datatype Step =
    | Startup(trials: seq<Trial>)
    | RunCycle(now: int, grace: int, alive: set<Handle>, trials: seq<Trial>, later: int, kept: seq<TestResult>)
    | Keepalive(probes: seq<Probe>)
    | DropSlot(index: int, retest: Option<TestResult>, startOk: bool)
    | Shutdown(now: int)

  /** A keepalive pass probes each slot at most once; the candidate pool after a
      cycle is one that `Update` may leave. */
  ghost predicate Legal(w: World, p: Params, maxLen: nat, step: Step) {
    match step
    case Keepalive(probes) => |probes| == |w.sys.slots|
    case RunCycle(now, grace, alive, trials, _, kept) =>
      Updated(w.candidates, Fill(Swept(w.sys, now, grace, alive), p, trials, 0).results, maxLen, kept)
    case _ => true
  }

  ghost function After(w: World, p: Params, step: Step): (r: World)
    ensures |r.sys.slots| == |w.sys.slots|
  {
    match step
    case Startup(trials) => w.(sys := StartupPass(w.sys, p, trials))
    case RunCycle(now, grace, alive, trials, later, kept) =>
      Cycle.RunCycle(w, p, now, grace, alive, trials, later, kept)
    case Keepalive(probes) =>
      if |probes| == |w.sys.slots| then w.(sys := w.sys.(slots := Probed(w.sys.slots, probes, p.failThreshold))) else w
    case DropSlot(i, retest, startOk) => if 0 <= i < |w.sys.slots| then Drop(w, i, p.basePort, retest, startOk) else w
    case Shutdown(now) => w.(sys := WanSpec.Shutdown(w.sys, now))
  }

  /** A fresh pool of `n` empty slots and no processes. */
  function Fresh(n: nat): World {
    World(Sys(seq(n, _ => EMPTY_SLOT), Os(map[], 0)), [], {})
  }

  ghost function Run(w: World, p: Params, steps: seq<Step>): (r: World)
    ensures |r.sys.slots| == |w.sys.slots|
  {
    if steps == [] then w else After(Run(w, p, steps[..|steps| - 1]), p, steps[|steps| - 1])
  }

  ghost predicate LegalRun(w: World, p: Params, maxLen: nat, steps: seq<Step>) {
    steps != [] ==>
      && LegalRun(w, p, maxLen, steps[..|steps| - 1])
      && Legal(Run(w, p, steps[..|steps| - 1]), p, maxLen, steps[|steps| - 1])
  }

  // ----- process conservation -----

  /** A slot holds a handle exactly while it serves, and that process is live on
      the slot's port. */
  ghost predicate SlotOk(s: Sys, base: int, i: nat)
    requires i < |s.slots|
  {
    && (s.slots[i].cmd.Some? <==> s.slots[i].Serving())
    && (s.slots[i].cmd.Some? ==> s.slots[i].cmd.value in s.os.live && s.os.live[s.slots[i].cmd.value] == base + i)
  }

  /** A live process is held by the slot of its port. */
  ghost predicate ProcessOk(s: Sys, base: int, h: Handle)
    requires h in s.os.live
  {
    var i := s.os.live[h] - base;
    h < s.os.next && 0 <= i < |s.slots| && s.slots[i].cmd == Some(h)
  }

  /** The processes started and not stopped are exactly those held by serving slots,
      each listening on the port of its slot. */
  ghost predicate Conserved(s: Sys, base: int) {
    && (forall i :: 0 <= i < |s.slots| ==> SlotOk(s, base, i))
    && (forall h :: h in s.os.live ==> ProcessOk(s, base, h))
  }

  lemma ResetConserves(s: Sys, base: int, i: nat)
    requires Conserved(s, base) && i < |s.slots|
    ensures Conserved(Reset(s, i), base)
  {
    var r := Reset(s, i);
    assert SlotOk(s, base, i);
    forall j | 0 <= j < |r.slots| ensures SlotOk(r, base, j) {
      assert SlotOk(s, base, j);
    }
    forall h | h in r.os.live ensures ProcessOk(r, base, h) {
      assert ProcessOk(s, base, h);
    }
  }

  lemma {:induction false} ResetAllConserves(s: Sys, base: int, idxs: seq<nat>)
    requires Conserved(s, base) && forall k :: 0 <= k < |idxs| ==> idxs[k] < |s.slots|
    ensures Conserved(ResetAll(s, idxs), base)
    decreases |idxs|
  {
    if idxs != [] {
      ResetConserves(s, base, idxs[0]);
      ResetAllConserves(Reset(s, idxs[0]), base, idxs[1..]);
    }
  }

  lemma PromoteConserves(s: Sys, base: int, i: nat, cfg: ProxyConfig, startOk: bool, speed: real, stability: int)
    requires Conserved(s, base) && i < |s.slots| && s.slots[i].state.Empty?
    ensures Conserved(Promote(s, i, cfg, base + i, startOk, speed, stability), base)
  {
    var r := Promote(s, i, cfg, base + i, startOk, speed, stability);
    assert SlotOk(s, base, i) && s.slots[i].cmd == None;
    assert forall j :: 0 <= j < |r.slots| && j != i ==> r.slots[j] == s.slots[j];
    forall j | 0 <= j < |r.slots| ensures SlotOk(r, base, j) {
      assert SlotOk(s, base, j);
      assert j != i && s.slots[j].cmd.Some? ==> ProcessOk(s, base, s.slots[j].cmd.value);
    }
    forall h | h in r.os.live ensures ProcessOk(r, base, h) {
      assert h in s.os.live ==> ProcessOk(s, base, h);
    }
  }

  /** Changes that keep every slot's handle and whether it serves. */
  lemma SameHandlesConserve(s: Sys, base: int, slots: seq<Slot>)
    requires Conserved(s, base) && |slots| == |s.slots|
    requires forall i :: 0 <= i < |slots| ==>
      slots[i].cmd == s.slots[i].cmd && slots[i].Serving() == s.slots[i].Serving()
    ensures Conserved(s.(slots := slots), base)
  {
    forall i | 0 <= i < |slots| ensures SlotOk(s.(slots := slots), base, i) {
      assert SlotOk(s, base, i);
    }
    forall h | h in s.os.live ensures ProcessOk(s.(slots := slots), base, h) {
      assert ProcessOk(s, base, h);
    }
  }

  lemma TriedConserves(s: Sys, p: Params, t: Trial)
    requires Conserved(s, p.basePort) && Empties(s.slots) != []
    ensures Conserved(Tried(s, p, t), p.basePort)
  {
    var i := Empties(s.slots)[0];
    PromoteConserves(s, p.basePort, i, t.config, t.startOk, t.speed, t.stability);
  }

  lemma {:induction false} FillConserves(s: Sys, p: Params, trials: seq<Trial>, tested: nat)
    requires Conserved(s, p.basePort)
    ensures Conserved(Fill(s, p, trials, tested).sys, p.basePort)
    decreases |trials|
  {
    if trials != [] {
      var m := TryOne(s, p, trials[0], tested);
      if m.sys != s { TriedConserves(s, p, trials[0]); }
      if !m.stop { FillConserves(m.sys, p, trials[1..], tested + |m.result|); }
    }
  }

  lemma {:induction false} StartupConserves(s: Sys, p: Params, trials: seq<Trial>)
    requires Conserved(s, p.basePort)
    ensures Conserved(StartupFill(s, p, trials), p.basePort)
    decreases |trials|
  {
    if trials != [] {
      var m := TryAtStartup(s, p, trials[0]);
      if m.sys != s { TriedConserves(s, p, trials[0]); }
      if !m.stop { StartupConserves(m.sys, p, trials[1..]); }
    }
  }

  lemma SweepConserves(s: Sys, base: int, now: int, grace: int, alive: set<Handle>)
    requires Conserved(s, base)
    ensures Conserved(Swept(s, now, grace, alive), base)
  {
    var s1 := ResetAll(s, Expired(s.slots, now, grace));
    ResetAllConserves(s, base, Expired(s.slots, now, grace));
    ResetAllConserves(s1, base, DeadOnes(s1.slots, alive));
    ResetAllConserves(Reaped(s1, alive), base, DeadOnes(s1.slots, alive));
  }

  lemma {:induction false} ResetFirstConserves(s: Sys, base: int, n: nat)
    requires Conserved(s, base) && n <= |s.slots|
    ensures Conserved(ResetFirst(s, n), base)
  {
    if n > 0 {
      ResetFirstConserves(s, base, n - 1);
      ResetConserves(ResetFirst(s, n - 1), base, n - 1);
    }
  }

  lemma {:induction false} ResetFirstClears(s: Sys, n: nat)
    requires n <= |s.slots|
    ensures forall i :: 0 <= i < n ==> ResetFirst(s, n).slots[i] == EMPTY_SLOT
  {
    if n > 0 {
      ResetFirstClears(s, n - 1);
    }
  }

  lemma DropConserves(w: World, base: int, i: nat, retest: Option<TestResult>, startOk: bool)
    requires Conserved(w.sys, base) && i < |w.sys.slots|
    ensures Conserved(Drop(w, i, base, retest, startOk).sys, base)
  {
    ResetConserves(w.sys, base, i);
    var c := FirstEligible(w.candidates, ExcludedBy(w, i));
    if c.Some? && retest.Some? {
      PromoteConserves(Reset(w.sys, i), base, i, c.value.config, startOk, retest.value.speed, retest.value.stability);
    }
  }

  lemma RefillConserves(s: Sys, p: Params, trials: seq<Trial>, later: int)
    requires Conserved(s, p.basePort)
    ensures var f := Fill(s, p, trials, 0);
      Conserved(f.sys.(slots := Rotated(f.sys.slots, p, f.results, later)), p.basePort)
  {
    FillConserves(s, p, trials, 0);
    var f := Fill(s, p, trials, 0);
    SameHandlesConserve(f.sys, p.basePort, Rotated(f.sys.slots, p, f.results, later));
  }

  lemma ShutdownConserves(s: Sys, base: int, now: int)
    requires Conserved(s, base)
    ensures Conserved(WanSpec.Shutdown(s, now), base)
    ensures WanSpec.Shutdown(s, now).os.live == map[]
  {
    var d := DrainFirst(s, |s.slots|, now);
    SameHandlesConserve(s, base, d.slots);
    ResetFirstConserves(d, base, |d.slots|);
    ResetFirstClears(d, |d.slots|);
    var r := ResetFirst(d, |d.slots|);
    assert forall h :: h in r.os.live ==> ProcessOk(r, base, h);
  }

  lemma StepConserves(w: World, p: Params, maxLen: nat, step: Step)
    requires Conserved(w.sys, p.basePort) && Legal(w, p, maxLen, step)
    ensures Conserved(After(w, p, step).sys, p.basePort)
  {
    match step
    case Startup(trials) =>
      StartupConserves(w.sys, p, trials);
      var f := StartupFill(w.sys, p, trials);
      ResetAllConserves(f, p.basePort, ByState(f.slots, {Testing}));
    case RunCycle(now, grace, alive, trials, later, kept) =>
      SweepConserves(w.sys, p.basePort, now, grace, alive);
      RefillConserves(Swept(w.sys, now, grace, alive), p, trials, later);
    case Keepalive(probes) =>
      SameHandlesConserve(w.sys, p.basePort, Probed(w.sys.slots, probes, p.failThreshold));
    case DropSlot(i, retest, startOk) =>
      if 0 <= i < |w.sys.slots| { DropConserves(w, p.basePort, i, retest, startOk); }
    case Shutdown(now) =>
      ShutdownConserves(w.sys, p.basePort, now);
  }

  /** At every point of every run the live service processes are exactly the handles
      of the serving slots, one per slot, on the slot's own port. */
  lemma {:induction false} ProcessesConserved(n: nat, p: Params, maxLen: nat, steps: seq<Step>)
    requires LegalRun(Fresh(n), p, maxLen, steps)
    ensures Conserved(Run(Fresh(n), p, steps).sys, p.basePort)
    decreases |steps|
  {
    if steps != [] {
      ProcessesConserved(n, p, maxLen, steps[..|steps| - 1]);
      StepConserves(Run(Fresh(n), p, steps[..|steps| - 1]), p, maxLen, steps[|steps| - 1]);
    }
  }

  /** No two live processes ever share a port. */
  lemma OneProcessPerPort(s: Sys, base: int, h1: Handle, h2: Handle)
    requires Conserved(s, base) && h1 in s.os.live && h2 in s.os.live && s.os.live[h1] == s.os.live[h2]
    ensures h1 == h2
  {
    assert ProcessOk(s, base, h1) && ProcessOk(s, base, h2);
  }

  /** A shutdown at any point stops everything. */
  lemma ShutdownStopsAll(n: nat, p: Params, maxLen: nat, steps: seq<Step>, now: int)
    requires LegalRun(Fresh(n), p, maxLen, steps)
    ensures After(Run(Fresh(n), p, steps), p, Shutdown(now)).sys.os.live == map[]
  {
    ProcessesConserved(n, p, maxLen, steps);
    ShutdownConserves(Run(Fresh(n), p, steps).sys, p.basePort, now);
  }

  // ----- endpoint uniqueness -----

  ghost predicate SameEndpoint(a: Slot, b: Slot) {
    a.Serving() && b.Serving() && a.config.Some? && b.config.Some?
    && a.config.value.server == b.config.value.server && a.config.value.port == b.config.value.port
  }

  /** No two serving slots share an upstream endpoint. */
  ghost predicate Unique(slots: seq<Slot>) {
    forall i, j :: 0 <= i < j < |slots| ==> !SameEndpoint(slots[i], slots[j])
  }

  /** Slots that end no more active than they began, on the same configs and speeds. */
  ghost predicate Fewer(before: seq<Slot>, after: seq<Slot>) {
    && |after| == |before|
    && forall i :: 0 <= i < |after| && after[i].Serving() ==>
      before[i].Serving() && after[i].config == before[i].config && after[i].speed == before[i].speed
  }

  lemma FewerStaysUnique(before: seq<Slot>, after: seq<Slot>)
    requires Unique(before) && Fewer(before, after)
    ensures Unique(after)
  {
    forall i, j | 0 <= i < j < |after| ensures !SameEndpoint(after[i], after[j]) {
      assert !SameEndpoint(before[i], before[j]);
    }
  }

  lemma {:induction false} ResetAllFewer(s: Sys, idxs: seq<nat>)
    requires forall k :: 0 <= k < |idxs| ==> idxs[k] < |s.slots|
    ensures Fewer(s.slots, ResetAll(s, idxs).slots)
    decreases |idxs|
  {
    if idxs != [] {
      ResetAllFewer(Reset(s, idxs[0]), idxs[1..]);
    }
  }

  lemma {:induction false} ResetFirstFewer(s: Sys, n: nat)
    requires n <= |s.slots|
    ensures Fewer(s.slots, ResetFirst(s, n).slots)
  {
    if n > 0 {
      ResetFirstFewer(s, n - 1);
    }
  }

  /** Writing into an empty slot keeps uniqueness exactly when no other slot serves
      the endpoint written. */
  lemma UpdateUniqueIff(slots: seq<Slot>, i: nat, x: Slot)
    requires Unique(slots) && i < |slots| && x.Serving() && x.config.Some? && !slots[i].Serving()
    ensures Unique(slots[i := x]) <==> !Served(slots, x.config.value.server, x.config.value.port)
  {
    var after := slots[i := x];
    if Served(slots, x.config.value.server, x.config.value.port) {
      var j :| 0 <= j < |slots| && slots[j].Serves(x.config.value.server, x.config.value.port);
      assert SameEndpoint(after[if i < j then i else j], after[if i < j then j else i]);
    } else {
      forall a, b | 0 <= a < b < |after| ensures !SameEndpoint(after[a], after[b]) {
        assert !SameEndpoint(slots[a], slots[b]);
        assert a != i ==> !slots[a].Serves(x.config.value.server, x.config.value.port);
        assert b != i ==> !slots[b].Serves(x.config.value.server, x.config.value.port);
      }
    }
  }

  lemma TriedUnique(s: Sys, p: Params, t: Trial)
    requires Unique(s.slots) && Empties(s.slots) != [] && !Skipped(s.slots, t)
    ensures Unique(Tried(s, p, t).slots)
  {
    var i := Empties(s.slots)[0];
    assert InState({Empty})(s.slots[i]);
    if t.startOk {
      UpdateUniqueIff(s.slots, i, Tried(s, p, t).slots[i]);
    } else {
      assert Tried(s, p, t).slots == s.slots[i := EMPTY_SLOT];
      FewerStaysUnique(s.slots, s.slots[i := EMPTY_SLOT]);
    }
  }

  lemma {:induction false} FillUnique(s: Sys, p: Params, trials: seq<Trial>, tested: nat)
    requires Unique(s.slots)
    ensures Unique(Fill(s, p, trials, tested).sys.slots)
    decreases |trials|
  {
    if trials != [] {
      var m := TryOne(s, p, trials[0], tested);
      if m.sys != s { TriedUnique(s, p, trials[0]); }
      if !m.stop { FillUnique(m.sys, p, trials[1..], tested + |m.result|); }
    }
  }

  lemma {:induction false} StartupUnique(s: Sys, p: Params, trials: seq<Trial>)
    requires Unique(s.slots)
    ensures Unique(StartupFill(s, p, trials).slots)
    decreases |trials|
  {
    if trials != [] {
      var m := TryAtStartup(s, p, trials[0]);
      if m.sys != s { TriedUnique(s, p, trials[0]); }
      if !m.stop { StartupUnique(m.sys, p, trials[1..]); }
    }
  }

  lemma SweepUnique(s: Sys, now: int, grace: int, alive: set<Handle>)
    requires Unique(s.slots)
    ensures Unique(Swept(s, now, grace, alive).slots)
  {
    var s1 := ResetAll(s, Expired(s.slots, now, grace));
    ResetAllFewer(s, Expired(s.slots, now, grace));
    FewerStaysUnique(s.slots, s1.slots);
    ResetAllFewer(s1, DeadOnes(s1.slots, alive));
    FewerStaysUnique(s1.slots, Reaped(s1, alive).slots);
    ResetAllFewer(Reaped(s1, alive), DeadOnes(s1.slots, alive));
    FewerStaysUnique(Reaped(s1, alive).slots, Swept(s, now, grace, alive).slots);
  }

  lemma StepUnique(w: World, p: Params, step: Step)
    requires Unique(w.sys.slots) && !step.DropSlot?
    ensures Unique(After(w, p, step).sys.slots)
  {
    match step
    case Startup(trials) =>
      StartupUnique(w.sys, p, trials);
      var f := StartupFill(w.sys, p, trials);
      ResetAllFewer(f, ByState(f.slots, {Testing}));
      FewerStaysUnique(f.slots, ResetAll(f, ByState(f.slots, {Testing})).slots);
    case RunCycle(now, grace, alive, trials, later, kept) =>
      SweepUnique(w.sys, now, grace, alive);
      var f := Fill(Swept(w.sys, now, grace, alive), p, trials, 0);
      FillUnique(Swept(w.sys, now, grace, alive), p, trials, 0);
      FewerStaysUnique(f.sys.slots, Rotated(f.sys.slots, p, f.results, later));
    case Keepalive(probes) =>
      FewerStaysUnique(w.sys.slots, After(w, p, step).sys.slots);
    case Shutdown(now) =>
      var d := DrainFirst(w.sys, |w.sys.slots|, now);
      FewerStaysUnique(w.sys.slots, d.slots);
      ResetFirstFewer(d, |d.slots|);
      FewerStaysUnique(d.slots, ResetFirst(d, |d.slots|).slots);
  }

  /** In runs without drops, no endpoint is ever served twice. */
  lemma {:induction false} EndpointsStayUnique(n: nat, p: Params, steps: seq<Step>)
    requires forall k :: 0 <= k < |steps| ==> !steps[k].DropSlot?
    ensures Unique(Run(Fresh(n), p, steps).sys.slots)
    decreases |steps|
  {
    if steps != [] {
      EndpointsStayUnique(n, p, steps[..|steps| - 1]);
      StepUnique(Run(Fresh(n), p, steps[..|steps| - 1]), p, steps[|steps| - 1]);
    }
  }

  /** A successful drop keeps endpoints unique exactly when no other slot already
      serves the promoted endpoint; it does not check this itself. */
  lemma DropUniqueIff(w: World, base: int, i: nat, retest: Option<TestResult>, startOk: bool)
    requires Unique(w.sys.slots) && i < |w.sys.slots| && DropPromotes(w, i, retest, startOk).Some?
    ensures var c := DropPromotes(w, i, retest, startOk).value.config;
      Unique(Drop(w, i, base, retest, startOk).sys.slots) <==>
        forall j :: 0 <= j < |w.sys.slots| && j != i ==> !w.sys.slots[j].Serves(c.server, c.port)
  {
    var c := DropPromotes(w, i, retest, startOk).value.config;
    var cleared := w.sys.slots[i := EMPTY_SLOT];
    FewerStaysUnique(w.sys.slots, cleared);
    var after := Drop(w, i, base, retest, startOk).sys.slots;
    assert after == cleared[i := after[i]];
    UpdateUniqueIff(cleared, i, after[i]);
    assert forall j :: 0 <= j < |cleared| && j != i ==> cleared[j] == w.sys.slots[j];
    assert !cleared[i].Serves(c.server, c.port);
  }

  // ----- the leak guard -----

  function Configs(trials: seq<Trial>): (r: seq<ProxyConfig>)
    ensures |r| == |trials| && forall k :: 0 <= k < |r| ==> r[k] == trials[k].config
  {
    seq(|trials|, k requires 0 <= k < |trials| => trials[k].config)
  }

  /** The entries are those of some subscription text. */
  ghost predicate FromSubscription(trials: seq<Trial>) {
    exists body: string, lib: Library :: Configs(trials) == Parsed(body, lib)
  }

  ghost predicate Fetched(step: Step) {
    && (step.Startup? ==> FromSubscription(step.trials))
    && (step.RunCycle? ==> FromSubscription(step.trials))
  }

  /** Every serving slot and every candidate goes out through a proxy, and every
      candidate has a raw text to be excluded by. */
  ghost predicate Sealed(w: World) {
    SealedSlots(w.sys.slots) && SealedResults(w.candidates)
  }

  ghost predicate SealedSlots(slots: seq<Slot>) {
    forall i :: 0 <= i < |slots| && slots[i].Serving() ==> slots[i].config.Some? && Proxied(slots[i].config.value)
  }

  ghost predicate SealedResults(rs: seq<TestResult>) {
    forall r :: r in rs ==> Proxied(r.config) && r.config.raw != ""
  }

  ghost predicate Guarded(trials: seq<Trial>) {
    forall k :: 0 <= k < |trials| ==> GuardExact(trials[k].config)
  }

  lemma SubscriptionIsGuarded(trials: seq<Trial>)
    requires FromSubscription(trials)
    ensures Guarded(trials)
  {
    var body: string, lib: Library :| Configs(trials) == Parsed(body, lib);
    SubscriptionGuarded(DecodeLines(Text.TrimSpace(body), lib), lib);
    forall k | 0 <= k < |trials| ensures GuardExact(trials[k].config) {
      assert Configs(trials)[k] == Parsed(body, lib)[k];
    }
  }

  lemma FewerStaysSealed(before: seq<Slot>, after: seq<Slot>)
    requires SealedSlots(before) && Fewer(before, after)
    ensures SealedSlots(after)
  {
  }

  lemma TriedSealed(s: Sys, p: Params, t: Trial)
    requires SealedSlots(s.slots) && Empties(s.slots) != [] && Proxied(t.config)
    ensures SealedSlots(Tried(s, p, t).slots)
  {
    var i := Empties(s.slots)[0];
    assert InState({Empty})(s.slots[i]);
    assert forall j :: 0 <= j < |s.slots| && j != i ==> Tried(s, p, t).slots[j] == s.slots[j];
  }

  lemma {:induction false} FillSealed(s: Sys, p: Params, trials: seq<Trial>, tested: nat)
    requires SealedSlots(s.slots) && Guarded(trials)
    ensures SealedSlots(Fill(s, p, trials, tested).sys.slots) && SealedResults(Fill(s, p, trials, tested).results)
    decreases |trials|
  {
    if trials != [] {
      var m := TryOne(s, p, trials[0], tested);
      TryOneSealed(s, p, trials[0], tested);
      if !m.stop {
        FillSealed(m.sys, p, trials[1..], tested + |m.result|);
        var rest := Fill(m.sys, p, trials[1..], tested + |m.result|);
        assert Fill(s, p, trials, tested) == Look(rest, m.result);
        assert forall r :: r in m.result + rest.results ==> r in m.result || r in rest.results;
      }
    }
  }

  lemma TryOneSealed(s: Sys, p: Params, t: Trial, tested: nat)
    requires SealedSlots(s.slots) && GuardExact(t.config)
    ensures SealedSlots(TryOne(s, p, t, tested).sys.slots) && SealedResults(TryOne(s, p, t, tested).result)
  {
    if TryOne(s, p, t, tested).sys != s { TriedSealed(s, p, t); }
  }

  lemma {:induction false} StartupSealed(s: Sys, p: Params, trials: seq<Trial>)
    requires SealedSlots(s.slots) && Guarded(trials)
    ensures SealedSlots(StartupFill(s, p, trials).slots)
    decreases |trials|
  {
    if trials != [] {
      assert GuardExact(trials[0].config);
      var m := TryAtStartup(s, p, trials[0]);
      if m.sys != s { TriedSealed(s, p, trials[0]); }
      if !m.stop { StartupSealed(m.sys, p, trials[1..]); }
    }
  }

  lemma UpdatedSealed(pool: seq<TestResult>, results: seq<TestResult>, maxLen: nat, kept: seq<TestResult>)
    requires Updated(pool, results, maxLen, kept) && SealedResults(pool) && SealedResults(results)
    ensures SealedResults(kept)
  {
    var merged :| RankingOf(pool + results, merged) && kept == Trim(merged, maxLen);
    forall r | r in kept ensures Proxied(r.config) && r.config.raw != "" {
      assert r in multiset(merged);
      assert r in pool + results;
    }
  }

  lemma SweepSealed(s: Sys, now: int, grace: int, alive: set<Handle>)
    requires SealedSlots(s.slots)
    ensures SealedSlots(Swept(s, now, grace, alive).slots)
  {
    var s1 := ResetAll(s, Expired(s.slots, now, grace));
    ResetAllFewer(s, Expired(s.slots, now, grace));
    ResetAllFewer(s1, DeadOnes(s1.slots, alive));
    ResetAllFewer(Reaped(s1, alive), DeadOnes(s1.slots, alive));
  }

  lemma RefillSealed(s: Sys, p: Params, trials: seq<Trial>, later: int, pool: seq<TestResult>, maxLen: nat,
                     kept: seq<TestResult>)
    requires SealedSlots(s.slots) && SealedResults(pool) && FromSubscription(trials)
    requires Updated(pool, Fill(s, p, trials, 0).results, maxLen, kept)
    ensures var f := Fill(s, p, trials, 0);
      SealedSlots(Rotated(f.sys.slots, p, f.results, later)) && SealedResults(kept)
  {
    var f := Fill(s, p, trials, 0);
    SubscriptionIsGuarded(trials);
    FillSealed(s, p, trials, 0);
    UpdatedSealed(pool, f.results, maxLen, kept);
    FewerStaysSealed(f.sys.slots, Rotated(f.sys.slots, p, f.results, later));
  }

  lemma DropSealed(w: World, base: int, i: nat, retest: Option<TestResult>, startOk: bool)
    requires Sealed(w) && i < |w.sys.slots|
    ensures Sealed(Drop(w, i, base, retest, startOk))
  {
    var c := FirstEligible(w.candidates, ExcludedBy(w, i));
    assert c.Some? ==> Proxied(c.value.config);
    var after := Drop(w, i, base, retest, startOk).sys.slots;
    assert forall j :: 0 <= j < |after| && j != i ==> after[j] == w.sys.slots[j];
  }

  lemma StepSealed(w: World, p: Params, maxLen: nat, step: Step)
    requires Sealed(w) && Legal(w, p, maxLen, step) && Fetched(step)
    ensures Sealed(After(w, p, step))
  {
    match step
    case Startup(trials) =>
      SubscriptionIsGuarded(trials);
      StartupSealed(w.sys, p, trials);
      var f := StartupFill(w.sys, p, trials);
      ResetAllFewer(f, ByState(f.slots, {Testing}));
    case RunCycle(now, grace, alive, trials, later, kept) =>
      SweepSealed(w.sys, now, grace, alive);
      RefillSealed(Swept(w.sys, now, grace, alive), p, trials, later, w.candidates, maxLen, kept);
    case Keepalive(probes) =>
      FewerStaysSealed(w.sys.slots, After(w, p, step).sys.slots);
    case DropSlot(i, retest, startOk) =>
      if 0 <= i < |w.sys.slots| { DropSealed(w, p.basePort, i, retest, startOk); }
    case Shutdown(now) =>
      var d := DrainFirst(w.sys, |w.sys.slots|, now);
      FewerStaysSealed(w.sys.slots, d.slots);
      ResetFirstFewer(d, |d.slots|);
  }

  /** Whatever the subscriptions contain and whatever happens, nothing that serves
      and nothing that could be promoted leaves straight from this machine, or escapes
      exclusion for lack of a raw text. */
  lemma {:induction false} NothingLeaks(n: nat, p: Params, maxLen: nat, steps: seq<Step>)
    requires LegalRun(Fresh(n), p, maxLen, steps)
    requires forall k :: 0 <= k < |steps| ==> Fetched(steps[k])
    ensures Sealed(Run(Fresh(n), p, steps))
    decreases |steps|
  {
    if steps != [] {
      NothingLeaks(n, p, maxLen, steps[..|steps| - 1]);
      StepSealed(Run(Fresh(n), p, steps[..|steps| - 1]), p, maxLen, steps[|steps| - 1]);
    }
  }
}
