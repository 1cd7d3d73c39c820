/** The WAN pool itself: slot records updated in place, each operation proved
    against the functions of WanSpec. */
module Wan {
  import opened Base
  import opened WanSpec
  import opened Candidates
  import opened World

  datatype PoolError = OutOfRange | NotEmpty | NotTesting | NotActive

  /** The operating system as the pool sees it: it starts and stops processes. */
  class Host {
    var os: Os

    constructor ()
      ensures os == Os(map[], 0)
    {
      os := Os(map[], 0);
    }

    /** `ok` is the operating system's answer; a handle is returned on success. */
    method Start(port: int, ok: bool) returns (cmd: Option<Handle>)
      modifies this
      ensures ok ==> cmd == Some(old(os).next) && os == old(os).Spawn(port)
      ensures !ok ==> cmd == None && os == old(os)
    {
      cmd := None;
      if ok {
        cmd := Some(os.next);
        os := os.Spawn(port);
      }
    }

    method Stop(cmd: Option<Handle>)
      modifies this
      ensures os == old(os).Kill(cmd)
    {
      os := os.Kill(cmd);
    }
  }

  class WanSlot {
    const servicePort: int
    var state: SlotState
    var config: Option<ProxyConfig>
    var cmd: Option<Handle>
    var conns: int
    var fails: int
    var speed: real
    var stability: int
    var drainAt: Option<int>
    var exitIp: string
    var lastProbe: Option<int>

    constructor (servicePort: int)
      ensures View() == EMPTY_SLOT && this.servicePort == servicePort
    {
      this.servicePort := servicePort;
      state, config, cmd, conns, fails := Empty, None, None, 0, 0;
      speed, stability, drainAt, exitIp, lastProbe := 0.0, 0, None, "", None;
    }

    function View(): Slot
      reads this
    {
      Slot(state, config, cmd, conns, fails, speed, stability, drainAt, exitIp, lastProbe)
    }
  }

  class WanPool {
    const slots: seq<WanSlot>
    const basePort: int
    const host: Host

    ghost predicate Valid() {
      && (forall i, j :: 0 <= i < j < |slots| ==> slots[i] != slots[j])
      && (forall i :: 0 <= i < |slots| ==> slots[i].servicePort == basePort + i)
    }

    function Slots(): (r: seq<Slot>)
      reads slots
    {
      seq(|slots|, i requires 0 <= i < |slots| reads slots => slots[i].View())
    }

    function State(): Sys
      reads slots, host
    {
      Sys(Slots(), host.os)
    }

    constructor (count: nat, basePort: int, host: Host)
      ensures Valid() && this.basePort == basePort && this.host == host
      ensures fresh(slots) && |slots| == count
      ensures forall i :: 0 <= i < count ==> Slots()[i] == EMPTY_SLOT
    {
      var made: seq<WanSlot> := [];
      while |made| < count
        invariant |made| <= count && fresh(made)
        invariant forall i, j :: 0 <= i < j < |made| ==> made[i] != made[j]
        invariant forall i :: 0 <= i < |made| ==> made[i].servicePort == basePort + i && made[i].View() == EMPTY_SLOT
      {
        var slot := new WanSlot(basePort + |made|);
        made := made + [slot];
      }
      slots, this.basePort, this.host := made, basePort, host;
    }

    method StartTesting(index: int, cfg: ProxyConfig) returns (err: Option<PoolError>)
      requires Valid()
      modifies slots
      ensures !(0 <= index < |slots|) ==> err == Some(OutOfRange) && Slots() == old(Slots())
      ensures 0 <= index < |slots| ==>
        && err == (if old(Slots())[index].state.Empty? then None else Some(NotEmpty))
        && Slots() == old(Slots())[index := old(Slots())[index].Prepared(cfg)]
      ensures err != None ==> Slots() == old(Slots())
      ensures err == None ==> Slots()[index] == old(Slots())[index].(state := Testing, config := Some(cfg))
    {
      if index < 0 || index >= |slots| { return Some(OutOfRange); }
      var slot := slots[index];
      if slot.state != Empty { return Some(NotEmpty); }
      slot.state, slot.config := Testing, Some(cfg);
      return None;
    }

    method ResetEmpty(index: int) returns (err: Option<PoolError>)
      requires Valid()
      modifies slots, host
      ensures !(0 <= index < |slots|) ==> err == Some(OutOfRange) && State() == old(State())
      ensures 0 <= index < |slots| ==> err == None && State() == Reset(old(State()), index)
      ensures err == None ==>
        var s := Slots()[index];
        && s.state == Empty && s.config == None && s.cmd == None && s.conns == 0 && s.fails == 0
        && s.speed == 0.0 && s.stability == 0 && s.drainAt == None && s.exitIp == "" && s.lastProbe == None
      ensures err == None ==>
        var cmd := old(Slots())[index].cmd;
        host.os.live == old(host.os.live) - if cmd.Some? then {cmd.value} else {}
    {
      if index < 0 || index >= |slots| { return Some(OutOfRange); }
      var slot := slots[index];
      if slot.cmd.Some? { host.Stop(slot.cmd); }
      slot.state, slot.config, slot.cmd, slot.conns, slot.fails := Empty, None, None, 0, 0;
      slot.speed, slot.stability, slot.drainAt, slot.exitIp, slot.lastProbe := 0.0, 0, None, "", None;
      return None;
    }

    method SetActive(index: int, cmd: Option<Handle>) returns (err: Option<PoolError>)
      requires Valid()
      modifies slots
      ensures !(0 <= index < |slots|) ==> err == Some(OutOfRange) && Slots() == old(Slots())
      ensures 0 <= index < |slots| ==>
        && err == (if old(Slots())[index].state.Testing? then None else Some(NotTesting))
        && Slots() == old(Slots())[index := old(Slots())[index].Activated(cmd)]
      ensures err != None ==> Slots() == old(Slots())
      ensures err == None ==> Slots()[index] == old(Slots())[index].(state := Active, cmd := cmd)
    {
      if index < 0 || index >= |slots| { return Some(OutOfRange); }
      var slot := slots[index];
      if slot.state != Testing { return Some(NotTesting); }
      slot.state, slot.cmd := Active, cmd;
      return None;
    }

    method MarkDraining(index: int, now: int) returns (err: Option<PoolError>)
      requires Valid()
      modifies slots
      ensures !(0 <= index < |slots|) ==> err == Some(OutOfRange) && Slots() == old(Slots())
      ensures 0 <= index < |slots| ==>
        && err == (if old(Slots())[index].state.Active? then None else Some(NotActive))
        && Slots() == old(Slots())[index := old(Slots())[index].Drained(now)]
      ensures err != None ==> Slots() == old(Slots())
      ensures err == None ==> Slots()[index] == old(Slots())[index].(state := Draining, drainAt := Some(now))
    {
      if index < 0 || index >= |slots| { return Some(OutOfRange); }
      var slot := slots[index];
      if slot.state != Active { return Some(NotActive); }
      slot.state, slot.drainAt := Draining, Some(now);
      return None;
    }

    method SetFigures(index: int, speed: real, stability: int)
      requires Valid() && 0 <= index < |slots|
      modifies slots
      ensures Slots() == old(Slots())[index := old(Slots())[index].(speed := speed, stability := stability)]
    {
      slots[index].speed := speed;
      slots[index].stability := stability;
    }

    method IncConnCount(index: int)
      requires Valid()
      modifies slots
      ensures Slots() == if 0 <= index < |slots| then old(Slots())[index := old(Slots())[index].Begun()]
        else old(Slots())
      ensures 0 <= index < |slots| ==> Slots()[index] == old(Slots())[index].(conns := old(Slots())[index].conns + 1)
    {
      if index < 0 || index >= |slots| { return; }
      slots[index].conns := slots[index].conns + 1;
    }

    method DecConnCount(index: int)
      requires Valid()
      modifies slots
      ensures Slots() == if 0 <= index < |slots| then old(Slots())[index := old(Slots())[index].Ended()]
        else old(Slots())
      ensures 0 <= index < |slots| ==> Slots()[index] == old(Slots())[index].(conns := old(Slots())[index].conns - 1)
    {
      if index < 0 || index >= |slots| { return; }
      slots[index].conns := slots[index].conns - 1;
    }

    method RecordFailure(index: int)
      requires Valid()
      modifies slots
      ensures Slots() == if 0 <= index < |slots| then old(Slots())[index := old(Slots())[index].Failed()]
        else old(Slots())
      ensures 0 <= index < |slots| ==> Slots()[index] == old(Slots())[index].(fails := old(Slots())[index].fails + 1)
    {
      if index < 0 || index >= |slots| { return; }
      slots[index].fails := slots[index].fails + 1;
    }

    method RecordSuccess(index: int)
      requires Valid()
      modifies slots
      ensures Slots() == if 0 <= index < |slots| then old(Slots())[index := old(Slots())[index].Succeeded()]
        else old(Slots())
      ensures 0 <= index < |slots| ==> Slots()[index] == old(Slots())[index].(fails := 0)
    {
      if index < 0 || index >= |slots| { return; }
      slots[index].fails := 0;
    }

    /** Ascending indices of the slots in one of the given states. */
    method GetSlotsByState(states: set<SlotState>) returns (r: seq<nat>)
      ensures r == ByState(Slots(), states)
    {
      r := [];
      for i := 0 to |slots|
        invariant r == ByState(Slots()[..i], states)
      {
        assert Slots()[..i + 1][..i] == Slots()[..i];
        if slots[i].state in states { r := r + [i]; }
      }
      assert Slots()[..|slots|] == Slots();
    }

    method ActiveCount() returns (count: nat)
      ensures count == |ServingSlots(Slots())|
    {
      count := 0;
      for i := 0 to |slots|
        invariant count == |ServingSlots(Slots()[..i])|
      {
        assert Slots()[..i + 1][..i] == Slots()[..i];
        if slots[i].state == Active || slots[i].state == Draining { count := count + 1; }
      }
      assert Slots()[..|slots|] == Slots();
    }

    method RoutableCount(threshold: int) returns (count: nat)
      ensures count == |RoutableOnes(Slots(), threshold)|
      ensures count == |set i | 0 <= i < |slots| && slots[i].state in {Active, Draining}
                                && slots[i].fails < threshold && slots[i].cmd.Some?|
    {
      count := 0;
      for i := 0 to |slots|
        invariant count == |RoutableOnes(Slots()[..i], threshold)|
      {
        assert Slots()[..i + 1][..i] == Slots()[..i];
        var slot := slots[i];
        if slot.state == Active || slot.state == Draining {
          if slot.fails < threshold && slot.cmd.Some? { count := count + 1; }
        }
      }
      assert Slots()[..|slots|] == Slots();
      WhereCounts(Slots(), RoutableAt(threshold));
      assert (set i | 0 <= i < |slots| && slots[i].state in {Active, Draining}
                && slots[i].fails < threshold && slots[i].cmd.Some?)
        == set i | 0 <= i < |Slots()| && RoutableAt(threshold)(Slots()[i]);
    }

    method HasServerPort(server: string, port: int) returns (found: bool)
      ensures found == Served(Slots(), server, port)
    {
      for i := 0 to |slots|
        invariant forall j :: 0 <= j < i ==> !Slots()[j].Serves(server, port)
      {
        var slot := slots[i];
        if slot.state == Active || slot.state == Draining {
          if slot.config.Some? && slot.config.value.server == server && slot.config.value.port == port {
            assert Slots()[i].Serves(server, port);
            return true;
          }
        }
      }
      return false;
    }

    /** The first pass looks at routable slots, the second at all serving ones. */
    method GetLeastLoaded(threshold: int := DEFAULT_FAIL_THRESHOLD) returns (best: int)
      ensures LeastLoaded(Slots(), threshold, best)
    {
      ghost var all := Slots();
      best := -1;
      var bestCount := -1;
      for i := 0 to |slots|
        invariant LeastOf(all[..i], RoutableAt(threshold), best)
        invariant best != -1 ==> bestCount == all[best].conns
      {
        var slot := slots[i];
        assert all[i] == slot.View();
        LeastStep(all, RoutableAt(threshold), i, best);
        var s, c, cmd, fails := slot.state, slot.conns, slot.cmd, slot.fails;
        if s == Active || s == Draining {
          if fails < threshold && cmd.Some? {
            if best == -1 || c < bestCount { best, bestCount := i, c; }
          }
        }
      }
      assert all[..|slots|] == all;
      if best != -1 {
        assert RoutableAt(threshold)(all[best]);
        return best;
      }
      for i := 0 to |slots|
        invariant LeastOf(all[..i], InState({Active, Draining}), best)
        invariant best != -1 ==> bestCount == all[best].conns
      {
        var slot := slots[i];
        assert all[i] == slot.View();
        LeastStep(all, InState({Active, Draining}), i, best);
        var s, c := slot.state, slot.conns;
        if s == Active || s == Draining {
          if best == -1 || c < bestCount { best, bestCount := i, c; }
        }
      }
    }

    method PickReplacementSlot(activeSlots: seq<int>) returns (best: int)
      ensures best == Churniest(Slots(), activeSlots)
    {
      if |activeSlots| == 0 { return -1; }
      best := activeSlots[0];
      for k := 1 to |activeSlots|
        invariant best == Churniest(Slots(), activeSlots[..k])
      {
        assert activeSlots[..k + 1][..k] == activeSlots[..k];
        var idx := activeSlots[k];
        var score, bestScore := SlotStabilityScore(idx), SlotStabilityScore(best);
        if score > bestScore { best := idx; }
      }
      assert activeSlots[..|activeSlots|] == activeSlots;
    }

    function SlotStabilityScore(index: int): int
      reads slots
    {
      if index < 0 || index >= |slots| then 0 else slots[index].stability
    }

    method DrainExpired(now: int, grace: int) returns (r: seq<nat>)
      ensures r == Expired(Slots(), now, grace)
      ensures forall i :: i in r <==>
        && 0 <= i < |slots| && slots[i].state == Draining
        && slots[i].drainAt.Some? && now - slots[i].drainAt.value >= grace
      ensures forall a, b :: 0 <= a < b < |r| ==> r[a] < r[b]
    {
      r := [];
      for i := 0 to |slots|
        invariant r == Expired(Slots()[..i], now, grace)
      {
        assert Slots()[..i + 1][..i] == Slots()[..i];
        var slot := slots[i];
        if slot.state == Draining && slot.drainAt.Some? && now - slot.drainAt.value >= grace {
          r := r + [i];
        }
      }
      assert Slots()[..|slots|] == Slots();
      WhereMembers(Slots(), ExpiredAt(now, grace));
      WhereAscends(Slots(), ExpiredAt(now, grace));
    }

    /** The check of one slot: a dead one is stopped and cleared. */
    method ReapSlot(i: nat, alive: set<Handle>) returns (dead: bool)
      requires Valid() && i < |slots|
      modifies slots, host
      ensures dead == DeadAmong(alive)(old(Slots())[i])
      ensures State() == if dead then Reset(old(State()), i) else old(State())
    {
      var slot := slots[i];
      assert slot.View() == Slots()[i];
      dead := false;
      if slot.state == Active || slot.state == Draining {
        if !(slot.cmd.Some? && slot.cmd.value in alive) {
          dead := true;
          var _ := ResetEmpty(i);
        }
      }
    }

    /** Clears every serving slot whose process is not among `alive`. */
    method HealthCheckAll(alive: set<Handle>) returns (r: seq<nat>)
      requires Valid()
      modifies slots, host
      ensures r == DeadOnes(old(Slots()), alive)
      ensures State() == Reaped(old(State()), alive)
      ensures forall i :: i in r <==>
        && 0 <= i < |slots| && old(Slots())[i].state in {Active, Draining}
        && (old(Slots())[i].cmd.None? || old(Slots())[i].cmd.value !in alive)
    {
      ghost var was := State();
      r := [];
      for i := 0 to |slots|
        invariant r == DeadOnes(was.slots[..i], alive)
        invariant State() == ReapedFirst(was, alive, i)
      {
        var dead := ReapSlot(i, alive);
        ReapStep(was, alive, i);
        if dead { r := r + [i]; }
      }
      assert was.slots[..|slots|] == was.slots;
      WhereMembers(was.slots, DeadAmong(alive));
    }

    method ShutdownAll(now: int)
      requires Valid()
      modifies slots, host
      ensures State() == Shutdown(old(State()), now)
    {
      for i := 0 to |slots|
        invariant State() == DrainFirst(old(State()), i, now)
      {
        ghost var before := Slots();
        assert before[i] == slots[i].View() == old(Slots())[i];
        if slots[i].state == Active {
          slots[i].state, slots[i].drainAt := Draining, Some(now);
        }
        assert Slots() == before[i := before[i].Drained(now)];
        assert Slots() == DrainFirst(old(State()), i + 1, now).slots;
      }
      for i := 0 to |slots|
        invariant State() == ResetFirst(DrainFirst(old(State()), |slots|, now), i)
      {
        var _ := ResetEmpty(i);
      }
    }

    function Snapshot(candidates: CandidatePool): World
      reads slots, host, candidates
    {
      World(State(), candidates.candidates, candidates.excluded)
    }

    /** Fills a slot as startup and the cycle do: errors of the two state changes
        are ignored, a failed start clears the slot. */
    method Fill(index: nat, cfg: ProxyConfig, port: int, startOk: bool, result: TestResult) returns (started: bool)
      requires Valid() && index < |slots|
      modifies slots, host
      ensures State() == Promote(old(State()), index, cfg, port, startOk, result.speed, result.stability)
      ensures started == startOk
    {
      var _ := StartTesting(index, cfg);
      var cmd := host.Start(port, startOk);
      if cmd.None? {
        var _ := ResetEmpty(index);
        return false;
      }
      var _ := SetActive(index, cmd);
      SetFigures(index, result.speed, result.stability);
      return true;
    }

    /** The second half of a drop: claim the slot, start the process, activate. */
    method Install(index: nat, cfg: ProxyConfig, startOk: bool, result: TestResult) returns (err: Option<DropError>)
      requires Valid() && index < |slots|
      modifies slots, host
      ensures old(Slots())[index].state.Empty? ==>
        && State() == Promote(old(State()), index, cfg, basePort + index, startOk, result.speed, result.stability)
        && err == if startOk then None else Some(StartFailed)
      ensures !old(Slots())[index].state.Empty? ==> State() == old(State()) && err == Some(PrepareFailed)
    {
      ghost var was := State();
      var prepared := StartTesting(index, cfg);
      if prepared.Some? { return Some(PrepareFailed); }
      var cmd := host.Start(slots[index].servicePort, startOk);
      if cmd.None? {
        assert State() == was.(slots := was.slots[index := was.slots[index].Prepared(cfg)]);
        var _ := ResetEmpty(index);
        return Some(StartFailed);
      }
      Activate(index, cmd, result);
      return None;
    }

    /** The "activate" exit (stop, clear, report) cannot be reached by a call that
        runs alone; DropProtocol has it and proves it dead under interleaving too. */
    method Activate(index: nat, cmd: Option<Handle>, result: TestResult)
      requires Valid() && index < |slots| && Slots()[index].state.Testing?
      modifies slots
      ensures Slots() == old(Slots())[index :=
        old(Slots())[index].Activated(cmd).(speed := result.speed, stability := result.stability)]
    {
      var err := SetActive(index, cmd);
      if err.Some? { assert false; }
      SetFigures(index, result.speed, result.stability);
    }

    /** Drops slot `index` and promotes the best remaining candidate onto its port.
        The reply is never "prepare" or "activate" failed. */
    method DropAndReplace(index: int, candidates: CandidatePool?, retest: Option<TestResult>, startOk: bool)
      returns (err: Option<DropError>)
      requires Valid() && (candidates != null ==> candidates.Valid())
      modifies slots, host, if candidates == null then {} else {candidates}
      ensures !(0 <= index < |slots|) ==> err == Some(DropOutOfRange) && State() == old(State())
      ensures 0 <= index < |slots| && candidates == null ==>
        err == Some(NoReplacementCandidate) && State() == Reset(old(State()), index)
      ensures 0 <= index < |slots| && candidates != null ==>
        && candidates.Valid()
        && Snapshot(candidates) == Drop(old(Snapshot(candidates)), index, basePort, retest, startOk)
        && err == DropReply(old(Snapshot(candidates)), index, retest, startOk)
    {
      if index < 0 || index >= |slots| { return Some(DropOutOfRange); }
      var slot := slots[index];
      var current, servicePort := slot.config, slot.servicePort;
      assert Slots()[index] == slot.View();
      if candidates != null && current.Some? && current.value.raw != "" {
        candidates.Exclude(current.value.raw);
      }
      var _ := ResetEmpty(index);
      if candidates == null { return Some(NoReplacementCandidate); }
      var candidate := candidates.Best();
      if candidate.None? { return Some(NoReplacementCandidate); }
      if retest.None? || retest.value.failed { return Some(ReplacementTestFailed); }
      err := Install(index, candidate.value.config, startOk, retest.value);
    }
  }
}
