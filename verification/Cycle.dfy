/** The fetch-and-test cycle: filling empty slots in subscription order, feeding the
    candidate pool, and rotating at most one slot. */
module Cycle {
  import opened Base
  import opened WanSpec
  import opened Chooser
  import opened Protocols
  import opened World

  /** One subscription entry with what its speed test and its start would yield. */
  datatype Trial = Trial(config: ProxyConfig, failed: bool, speed: real, stability: int, startOk: bool) {
    function Result(): TestResult {
      TestResult(config, speed, stability, failed)
    }

    function Endpoint(): (string, int) {
      (config.server, config.port)
    }
  }

  datatype Params = Params(wanCount: int, basePort: int, minimumSpeed: real, maxTestPerCycle: int, failThreshold: int) {
    function Budget(): nat {
      if maxTestPerCycle > 0 then maxTestPerCycle else 20
    }
  }

  predicate Passes(p: Params, t: Trial) {
    !t.failed && t.speed >= p.minimumSpeed
  }

  /** Entries that are not even tested: unsupported, or already served. */
  predicate Skipped(slots: seq<Slot>, t: Trial) {
    !IsXraySupported(t.config) || Served(slots, t.config.server, t.config.port)
  }

  /** Full pool or spent budget. */
  predicate Stops(slots: seq<Slot>, p: Params, tested: nat) {
    (|ServingSlots(slots)| >= p.wanCount && Empties(slots) == []) || tested >= p.Budget()
  }

  function Tried(s: Sys, p: Params, t: Trial): (r: Sys)
    requires Empties(s.slots) != []
    ensures |r.slots| == |s.slots|
  {
    var i := Empties(s.slots)[0];
    Promote(s, i, t.config, p.basePort + i, t.startOk, t.speed, t.stability)
  }

  /** What one entry does to the loop: the state after it, its result if it was
      tested, and whether the loop ends here. */
  datatype Move = Move(sys: Sys, result: seq<TestResult>, stop: bool)

  function TryOne(s: Sys, p: Params, t: Trial, tested: nat): (m: Move)
    ensures |m.sys.slots| == |s.slots| && |m.result| <= 1
  {
    if Stops(s.slots, p, tested) then Move(s, [], true)
    else if Skipped(s.slots, t) then Move(s, [], false)
    else if !Passes(p, t) then Move(s, [t.Result()], false)
    else if Empties(s.slots) == [] then Move(s, [t.Result()], true)
    else Move(Tried(s, p, t), [t.Result()], false)
  }

  /** The state after the loop, its results in test order, and how many entries it looked at. */
  datatype Filled = Filled(sys: Sys, results: seq<TestResult>, used: nat)

  function Fill(s: Sys, p: Params, trials: seq<Trial>, tested: nat): (r: Filled)
    ensures |r.sys.slots| == |s.slots| && r.used <= |trials|
    decreases |trials|
  {
    if trials == [] then Filled(s, [], 0)
    else
      var m := TryOne(s, p, trials[0], tested);
      if m.stop then Filled(m.sys, m.result, |m.result|)
      else Look(Fill(m.sys, p, trials[1..], tested + |m.result|), m.result)
  }

  function Look(rest: Filled, results: seq<TestResult>): Filled {
    Filled(rest.sys, results + rest.results, rest.used + 1)
  }

  lemma FillHead(s: Sys, p: Params, trials: seq<Trial>, k: nat, tested: nat)
    requires k < |trials|
    ensures var m := TryOne(s, p, trials[k], tested);
      Fill(s, p, trials[k..], tested) ==
        if m.stop then Filled(m.sys, m.result, |m.result|)
          else Look(Fill(m.sys, p, trials[k + 1..], tested + |m.result|), m.result)
  {
    assert trials[k..][0] == trials[k] && trials[k..][1..] == trials[k + 1..];
  }

  /** The config is served by one of the listed slots. */
  predicate ActiveAt(slots: seq<Slot>, listed: seq<nat>, cfg: ProxyConfig) {
    exists k :: 0 <= k < |listed| && listed[k] < |slots| && slots[listed[k]].config.Some?
      && slots[listed[k]].config.value.server == cfg.server && slots[listed[k]].config.value.port == cfg.port
  }

  function TakenBy(slots: seq<Slot>, listed: seq<nat>): ProxyConfig -> bool {
    (cfg: ProxyConfig) => ActiveAt(slots, listed, cfg)
  }

  /** The slot the rotation marks draining, or -1. */
  function RotationTarget(slots: seq<Slot>, p: Params, results: seq<TestResult>): (i: int)
    ensures i == -1 || (0 <= i < |slots| && slots[i].state.Active?)
  {
    var active := Actives(slots);
    if active != [] && |active| == p.wanCount && results != [] &&
      Pick(results, p.minimumSpeed, TakenBy(slots, active)) != -1 then
      ChurniestIsFirstMaximum(slots, active);
      Churniest(slots, active)
    else -1
  }

  function Rotated(slots: seq<Slot>, p: Params, results: seq<TestResult>, now: int): (r: seq<Slot>)
    ensures |r| == |slots|
  {
    var i := RotationTarget(slots, p, results);
    if i == -1 then slots else slots[i := slots[i].Drained(now)]
  }

  /** Expired and dead slots are cleared first; dead ones are cleared twice. */
  function Swept(s: Sys, now: int, grace: int, alive: set<Handle>): (r: Sys)
    ensures |r.slots| == |s.slots|
  {
    var s1 := ResetAll(s, Expired(s.slots, now, grace));
    ResetAll(Reaped(s1, alive), DeadOnes(s1.slots, alive))
  }

  /** One whole cycle. `later` is the time of the rotation; `kept` is what the
      candidate pool made of the results. */
  function RunCycle(w: World, p: Params, now: int, grace: int, alive: set<Handle>, trials: seq<Trial>, later: int,
                    kept: seq<TestResult>): (r: World)
    ensures |r.sys.slots| == |w.sys.slots|
  {
    var s := Swept(w.sys, now, grace, alive);
    if trials == [] then w.(sys := s)
    else
      var f := Fill(s, p, trials, 0);
      World(f.sys.(slots := Rotated(f.sys.slots, p, f.results, later)), kept, w.excluded)
  }

  /** One entry at startup: stop as soon as enough slots serve; there is no budget. */
  function TryAtStartup(s: Sys, p: Params, t: Trial): (m: Move)
    ensures |m.sys.slots| == |s.slots|
  {
    if |ServingSlots(s.slots)| >= p.wanCount then Move(s, [], true)
    else if Skipped(s.slots, t) || !Passes(p, t) then Move(s, [], false)
    else if Empties(s.slots) == [] then Move(s, [], true)
    else Move(Tried(s, p, t), [], false)
  }

  function StartupFill(s: Sys, p: Params, trials: seq<Trial>): (r: Sys)
    ensures |r.slots| == |s.slots|
    decreases |trials|
  {
    if trials == [] then s
    else
      var m := TryAtStartup(s, p, trials[0]);
      if m.stop then m.sys else StartupFill(m.sys, p, trials[1..])
  }

  /** When the pass leaves too few serving slots, half-prepared ones are cleared. */
  function StartupPass(s: Sys, p: Params, trials: seq<Trial>): (r: Sys)
    ensures |r.slots| == |s.slots|
  {
    var f := StartupFill(s, p, trials);
    if trials == [] || |ServingSlots(f.slots)| >= p.wanCount then f
    else ResetAll(f, ByState(f.slots, {Testing}))
  }

  /** What one keepalive probe of a slot found. */
  datatype Probe = Probe(ok: bool, exitIp: Option<string>, at: int)

  function ProbedSlot(s: Slot, o: Probe, threshold: int): Slot {
    if !s.Serving() then s
    else if o.ok then
      if o.exitIp.Some? then s.Succeeded().(exitIp := o.exitIp.value, lastProbe := Some(o.at)) else s.Succeeded()
    else if threshold > 0 && s.Failed().fails >= threshold then s.Failed().Drained(o.at)
    else s.Failed()
  }

  function Probed(slots: seq<Slot>, probes: seq<Probe>, threshold: int): (r: seq<Slot>)
    requires |probes| == |slots|
    ensures |r| == |slots|
  {
    seq(|slots|, i requires 0 <= i < |slots| => ProbedSlot(slots[i], probes[i], threshold))
  }
}
