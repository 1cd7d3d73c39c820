/** The loops of startup, the cycle and the keepalive prober, run on the pool and
    proved against the functions of module Cycle. */
module CycleRun {
  import opened Base
  import opened WanSpec
  import opened Candidates
  import Chooser
  import opened Protocols
  import opened Wan
  import opened Cycle

  /** The body of the fill loop for one entry. */
  method TryEntry(pool: WanPool, p: Params, t: Trial, tested: nat) returns (result: seq<TestResult>, stop: bool)
    requires pool.Valid()
    modifies pool.slots, pool.host
    ensures Move(pool.State(), result, stop) == TryOne(old(pool.State()), p, t, tested)
  {
    result, stop := [], false;
    var active := pool.ActiveCount();
    var empty := pool.GetSlotsByState({Empty});
    if active >= p.wanCount && |empty| == 0 { return [], true; }
    if tested >= p.Budget() { return [], true; }
    if !IsXraySupported(t.config) { return; }
    var served := pool.HasServerPort(t.config.server, t.config.port);
    if served { return; }
    result := [t.Result()];
    if t.failed || t.speed < p.minimumSpeed { return; }
    if |empty| == 0 { stop := true; return; }
    var _ := pool.Fill(empty[0], t.config, p.basePort + empty[0], t.startOk, t.Result());
  }

  method FillLoop(pool: WanPool, p: Params, trials: seq<Trial>) returns (results: seq<TestResult>)
    requires pool.Valid()
    modifies pool.slots, pool.host
    ensures pool.State() == Cycle.Fill(old(pool.State()), p, trials, 0).sys
    ensures results == Cycle.Fill(old(pool.State()), p, trials, 0).results
  {
    results := [];
    ghost var now := pool.State();
    ghost var end := FillFrom(now, p, trials, 0, []);
    FillFromIsFill(now, p, trials, 0, []);
    assert trials[0..] == trials;
    for k := 0 to |trials|
      invariant now == pool.State()
      invariant FillFrom(now, p, trials, k, results) == end
    {
      var result, stop := TryEntry(pool, p, trials[k], |results|);
      results := results + result;
      now := pool.State();
      if stop { break; }
    }
  }

  /** The loop from entry `k` on, given the results so far. */
  ghost function FillFrom(s: Sys, p: Params, trials: seq<Trial>, k: nat,
                          results: seq<TestResult>): (Sys, seq<TestResult>)
    requires k <= |trials|
    decreases |trials| - k
  {
    if k == |trials| then (s, results)
    else
      var m := TryOne(s, p, trials[k], |results|);
      if m.stop then (m.sys, results + m.result) else FillFrom(m.sys, p, trials, k + 1, results + m.result)
  }

  lemma {:induction false} FillFromIsFill(s: Sys, p: Params, trials: seq<Trial>, k: nat, results: seq<TestResult>)
    requires k <= |trials|
    ensures var f := Cycle.Fill(s, p, trials[k..], |results|);
      FillFrom(s, p, trials, k, results) == (f.sys, results + f.results)
    decreases |trials| - k
  {
    if k == |trials| {
      assert results + [] == results;
    } else {
      FillHead(s, p, trials, k, |results|);
      var m := TryOne(s, p, trials[k], |results|);
      if !m.stop {
        FillFromIsFill(m.sys, p, trials, k + 1, results + m.result);
        LookAppends(Cycle.Fill(m.sys, p, trials[k + 1..], |results| + |m.result|), m.result, results);
      }
    }
  }

  lemma LookAppends(rest: Filled, result: seq<TestResult>, results: seq<TestResult>)
    ensures results + Look(rest, result).results == results + result + rest.results
  {
  }

  /** Clears the listed slots in order. */
  method ResetListed(pool: WanPool, idxs: seq<nat>)
    requires pool.Valid() && forall k :: 0 <= k < |idxs| ==> idxs[k] < |pool.slots|
    modifies pool.slots, pool.host
    ensures pool.State() == ResetAll(old(pool.State()), idxs)
  {
    ghost var was := pool.State();
    for k := 0 to |idxs|
      invariant pool.State() == ResetAll(was, idxs[..k])
    {
      assert idxs[..k + 1] == idxs[..k] + [idxs[k]];
      ResetAllSnoc(was, idxs[..k], idxs[k]);
      var _ := pool.ResetEmpty(idxs[k]);
    }
    assert idxs[..|idxs|] == idxs;
  }

  method Sweep(pool: WanPool, now: int, grace: int, alive: set<Handle>)
    requires pool.Valid()
    modifies pool.slots, pool.host
    ensures pool.State() == Swept(old(pool.State()), now, grace, alive)
  {
    var expired := pool.DrainExpired(now, grace);
    ResetListed(pool, expired);
    var dead := pool.HealthCheckAll(alive);
    ResetListed(pool, dead);
  }

  /** Marks the rotation target draining, if there is one. */
  method Rotate(pool: WanPool, p: Params, results: seq<TestResult>, later: int)
    requires pool.Valid()
    modifies pool.slots
    ensures pool.Slots() == Rotated(old(pool.Slots()), p, results, later)
  {
    ghost var was := pool.Slots();
    var activeSlots := pool.GetSlotsByState({Active});
    if |activeSlots| == p.wanCount && |results| > 0 {
      var listing := pool.Slots();
      var best := Chooser.BestNewCandidate(results, p.minimumSpeed, TakenBy(listing, activeSlots));
      if best.Some? {
        var replaceIdx := pool.PickReplacementSlot(activeSlots);
        var _ := pool.MarkDraining(replaceIdx, later);
      }
    }
  }

  /** Fill, feed the candidate pool, rotate. */
  method Refill(pool: WanPool, candidates: CandidatePool, p: Params, trials: seq<Trial>, later: int)
    requires pool.Valid() && candidates.Valid()
    modifies pool.slots, pool.host, candidates
    ensures candidates.Valid() && candidates.excluded == old(candidates.excluded)
    ensures var f := Cycle.Fill(old(pool.State()), p, trials, 0);
      && pool.State() == f.sys.(slots := Rotated(f.sys.slots, p, f.results, later))
      && Updated(old(candidates.candidates), f.results, candidates.maxLen, candidates.candidates)
  {
    ghost var f := Cycle.Fill(pool.State(), p, trials, 0);
    var results := FillLoop(pool, p, trials);
    candidates.Update(results);
    assert pool.State() == f.sys;
    Rotate(pool, p, results, later);
  }

  /** One cycle on the pool and the candidates; no fetched entries end it early. */
  method RunCycle(pool: WanPool, candidates: CandidatePool, p: Params, now: int, grace: int, alive: set<Handle>,
                  trials: seq<Trial>, later: int)
    requires pool.Valid() && candidates.Valid()
    modifies pool.slots, pool.host, candidates
    ensures candidates.Valid()
    ensures pool.Snapshot(candidates) == Cycle.RunCycle(old(pool.Snapshot(candidates)), p, now, grace, alive, trials,
      later, candidates.candidates)
    ensures trials != [] ==>
      Updated(old(candidates.candidates),
        Cycle.Fill(Swept(old(pool.State()), now, grace, alive), p, trials, 0).results, candidates.maxLen,
        candidates.candidates)
    ensures trials == [] ==> candidates.candidates == old(candidates.candidates)
  {
    Sweep(pool, now, grace, alive);
    if |trials| == 0 { return; }
    Refill(pool, candidates, p, trials, later);
  }

  /** One pass of the startup loop over a fetched subscription. */
  method StartupOnce(pool: WanPool, p: Params, trials: seq<Trial>)
    requires pool.Valid()
    modifies pool.slots, pool.host
    ensures pool.State() == StartupPass(old(pool.State()), p, trials)
  {
    if |trials| == 0 { return; }
    ghost var now := pool.State();
    ghost var end := StartupFill(now, p, trials);
    assert trials[0..] == trials;
    for k := 0 to |trials|
      invariant now == pool.State() && StartupFill(now, p, trials[k..]) == end
    {
      assert trials[k..][0] == trials[k] && trials[k..][1..] == trials[k + 1..];
      var stop := StartupEntry(pool, p, trials[k]);
      now := pool.State();
      if stop { break; }
    }
    var active := pool.ActiveCount();
    if active >= p.wanCount { return; }
    var testing := pool.GetSlotsByState({Testing});
    ResetListed(pool, testing);
  }

  method StartupEntry(pool: WanPool, p: Params, t: Trial) returns (stop: bool)
    requires pool.Valid()
    modifies pool.slots, pool.host
    ensures Move(pool.State(), [], stop) == TryAtStartup(old(pool.State()), p, t)
  {
    var active := pool.ActiveCount();
    if active >= p.wanCount { return true; }
    if !IsXraySupported(t.config) { return false; }
    var served := pool.HasServerPort(t.config.server, t.config.port);
    if served { return false; }
    if t.failed || t.speed < p.minimumSpeed { return false; }
    var empty := pool.GetSlotsByState({Empty});
    if |empty| == 0 { return true; }
    var _ := pool.Fill(empty[0], t.config, p.basePort + empty[0], t.startOk, t.Result());
    return false;
  }

  /** The keepalive pass: every serving slot is probed once, in order. */
  method ProbeAllWANs(pool: WanPool, probes: seq<Probe>, threshold: int)
    requires pool.Valid() && |probes| == |pool.slots|
    modifies pool.slots
    ensures pool.Slots() == Probed(old(pool.Slots()), probes, threshold)
  {
    ghost var was := pool.Slots();
    var idxs := pool.GetSlotsByState({Active, Draining});
    WhereAscends(was, InState({Active, Draining}));
    WhereMembers(was, InState({Active, Draining}));
    for k := 0 to |idxs|
      invariant forall i :: 0 <= i < |pool.slots| ==>
        pool.Slots()[i] == if i in idxs[..k] then ProbedSlot(was[i], probes[i], threshold) else was[i]
    {
      var idx := idxs[k];
      ghost var before := pool.Slots();
      assert idx !in idxs[..k];
      assert before[idx] == was[idx];
      ProbeOne(pool, idx, probes[idx], threshold);
      assert idxs[..k + 1] == idxs[..k] + [idx];
    }
    assert idxs[..|idxs|] == idxs;
  }

  method ProbeOne(pool: WanPool, idx: nat, o: Probe, threshold: int)
    requires pool.Valid() && idx < |pool.slots| && pool.Slots()[idx].Serving()
    modifies pool.slots
    ensures pool.Slots() == old(pool.Slots())[idx := ProbedSlot(old(pool.Slots())[idx], o, threshold)]
  {
    if !o.ok {
      pool.RecordFailure(idx);
      var slot := pool.slots[idx];
      assert slot.View() == pool.Slots()[idx];
      if threshold > 0 && slot.fails >= threshold && slot.state == Active {
        var _ := pool.MarkDraining(idx, o.at);
      }
      return;
    }
    pool.RecordSuccess(idx);
    if o.exitIp.Some? {
      var slot := pool.slots[idx];
      ghost var before := pool.Slots();
      assert slot.View() == before[idx];
      slot.exitIp, slot.lastProbe := o.exitIp.value, Some(o.at);
      assert pool.Slots() == before[idx := slot.View()];
    }
  }
}
