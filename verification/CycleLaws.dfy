/** What the fill loop and the rotation amount to: first fit in subscription order,
    and a rotation that only ever follows a failed start. */
module CycleLaws {
  import opened Base
  import opened WanSpec
  import opened Chooser
  import opened Protocols
  import opened Cycle

  /** No slot is half-prepared, as between any two atomic steps. */
  ghost predicate Settled(slots: seq<Slot>) {
    forall i :: 0 <= i < |slots| ==> !slots[i].state.Testing?
  }

  function Endpoints(slots: seq<Slot>): set<(string, int)> {
    set i | 0 <= i < |slots| && slots[i].Serving() &&
      slots[i].config.Some? :: (slots[i].config.value.server, slots[i].config.value.port)
  }

  lemma ServedIffEndpoint(slots: seq<Slot>, server: string, port: int)
    ensures Served(slots, server, port) <==> (server, port) in Endpoints(slots)
  {
    forall i | 0 <= i < |slots| && slots[i].Serves(server, port) ensures (server, port) in Endpoints(slots) {
      assert (server, port) == (slots[i].config.value.server, slots[i].config.value.port);
    }
  }

  /** Entry `at` of the subscription goes into slot `slot`. */
  datatype Placement = Placement(slot: nat, at: nat)

  /** The reference: walk the subscription from entry `k`, give each suitable entry
      that starts the next free slot, and count tests against the budget. */
  function FirstFit(trials: seq<Trial>, k: nat, free: seq<nat>, served: set<(string, int)>, p: Params,
                    budget: nat): seq<Placement>
    decreases |trials| - k
  {
    if k >= |trials| || free == [] || budget == 0 then []
    else
      var t := trials[k];
      if !IsXraySupported(t.config) || t.Endpoint() in served then FirstFit(trials, k + 1, free, served, p, budget)
      else if !Passes(p, t) || !t.startOk then FirstFit(trials, k + 1, free, served, p, budget - 1)
      else [Placement(free[0], k)] + FirstFit(trials, k + 1, free[1..], served + {t.Endpoint()}, p, budget - 1)
  }

  /** First fit takes the free slots in order, entries in subscription order, each
      supported, passing and startable, and no endpoint twice. */
  lemma {:induction false} FirstFitIsSound(trials: seq<Trial>, k: nat, free: seq<nat>, served: set<(string, int)>,
                                           p: Params, budget: nat)
    ensures var plan := FirstFit(trials, k, free, served, p, budget);
      && |plan| <= |free| && |plan| <= budget
      && (forall a :: 0 <= a < |plan| ==> plan[a].slot == free[a] && k <= plan[a].at < |trials|)
      && (forall a :: 0 <= a < |plan| ==> var t := trials[plan[a].at];
            && t.config.protocol !in {"hysteria2", "tuic", "wireguard"} && t.Endpoint() !in served
            && !t.failed && t.speed >= p.minimumSpeed && t.startOk)
      && (forall a, b :: 0 <= a < b < |plan| ==>
        plan[a].at < plan[b].at && trials[plan[a].at].Endpoint() != trials[plan[b].at].Endpoint())
    decreases |trials| - k
  {
    if k < |trials| && free != [] && budget != 0 {
      var t := trials[k];
      if !IsXraySupported(t.config) || t.Endpoint() in served {
        FirstFitIsSound(trials, k + 1, free, served, p, budget);
      } else if !Passes(p, t) || !t.startOk {
        FirstFitIsSound(trials, k + 1, free, served, p, budget - 1);
      } else {
        FirstFitIsSound(trials, k + 1, free[1..], served + {t.Endpoint()}, p, budget - 1);
      }
    }
  }

  /** Why an entry gets no slot. */
  ghost predicate Unsuitable(t: Trial, served: set<(string, int)>, p: Params) {
    || t.config.protocol in {"hysteria2", "tuic", "wireguard"} || t.Endpoint() in served
    || t.failed || t.speed < p.minimumSpeed || !t.startOk
  }

  /** Endpoints served once the first `n` placements are made. */
  function ServedWith(trials: seq<Trial>, plan: seq<Placement>, n: nat, served: set<(string, int)>): set<(string, int)>
    requires n <= |plan| && forall a :: 0 <= a < |plan| ==> plan[a].at < |trials|
  {
    served + set a | 0 <= a < n :: trials[plan[a].at].Endpoint()
  }

  /** First fit passes over nothing suitable: an entry before the last placement, or any
      entry if a free slot is left and the budget covers the subscription, is placed or
      unsuitable for what is served in the end. */
  lemma {:induction false} FirstFitIsComplete(trials: seq<Trial>, k: nat, free: seq<nat>, served: set<(string, int)>,
                                              p: Params, budget: nat, j: nat)
    requires k <= j < |trials|
    requires var plan := FirstFit(trials, k, free, served, p, budget);
      (plan != [] && j < plan[|plan| - 1].at) || (|plan| < |free| && budget >= |trials| - k)
    ensures Settles(trials, FirstFit(trials, k, free, served, p, budget), j, served, p)
    decreases |trials| - k
  {
    var plan := FirstFit(trials, k, free, served, p, budget);
    var t := trials[k];
    if !IsXraySupported(t.config) || t.Endpoint() in served {
      if j > k { FirstFitIsComplete(trials, k + 1, free, served, p, budget, j); }
      else { FirstFitIsSound(trials, k, free, served, p, budget); }
    } else if !Passes(p, t) || !t.startOk {
      if j > k { FirstFitIsComplete(trials, k + 1, free, served, p, budget - 1, j); }
      else { FirstFitIsSound(trials, k, free, served, p, budget); }
    } else {
      FirstFitIsSound(trials, k, free, served, p, budget);
      var served' := served + {t.Endpoint()};
      var rest := FirstFit(trials, k + 1, free[1..], served', p, budget - 1);
      assert plan == [Placement(free[0], k)] + rest;
      if j > k {
        assert rest != [] ==> plan[|plan| - 1] == rest[|rest| - 1];
        FirstFitIsComplete(trials, k + 1, free[1..], served', p, budget - 1, j);
        PlacedSettles(trials, Placement(free[0], k), rest, j, served, p);
      } else {
        assert plan[0].at == j;
      }
    }
  }

  /** Entry `j` is placed, or unsuitable for what is served in the end. */
  ghost predicate Settles(trials: seq<Trial>, plan: seq<Placement>, j: nat, served: set<(string, int)>, p: Params)
    requires j < |trials|
  {
    && (forall a :: 0 <= a < |plan| ==> plan[a].at < |trials|)
    && ((exists a :: 0 <= a < |plan| && plan[a].at == j)
        || Unsuitable(trials[j], ServedWith(trials, plan, |plan|, served), p))
  }

  lemma PlacedSettles(trials: seq<Trial>, first: Placement, rest: seq<Placement>, j: nat, served: set<(string, int)>,
                      p: Params)
    requires j < |trials| && first.at < |trials|
    requires Settles(trials, rest, j, served + {trials[first.at].Endpoint()}, p)
    ensures Settles(trials, [first] + rest, j, served, p)
  {
    var plan := [first] + rest;
    ServedShift(trials, first, rest, served);
    if exists a :: 0 <= a < |rest| && rest[a].at == j {
      var a :| 0 <= a < |rest| && rest[a].at == j;
      assert plan[a + 1].at == j;
    }
  }

  lemma ServedShift(trials: seq<Trial>, first: Placement, rest: seq<Placement>, served: set<(string, int)>)
    requires first.at < |trials| && forall a :: 0 <= a < |rest| ==> rest[a].at < |trials|
    ensures ServedWith(trials, [first] + rest, |rest| + 1, served)
      == ServedWith(trials, rest, |rest|, served + {trials[first.at].Endpoint()})
  {
    var plan := [first] + rest;
    assert plan[0] == first;
    forall a | 0 <= a < |rest| ensures trials[rest[a].at].Endpoint() in ServedWith(trials, plan, |plan|, served) {
      assert plan[a + 1] == rest[a];
    }
  }

  ghost predicate Holds(s: Slot, t: Trial) {
    s.state.Active? && s.config == Some(t.config) && s.cmd.Some? && s.speed == t.speed && s.stability == t.stability
  }

  ghost predicate Planned(plan: seq<Placement>, i: nat) {
    exists a :: 0 <= a < |plan| && plan[a].slot == i
  }

  /** `after` is `before` with the plan carried out: planned slots run their entries,
      other empty slots stay empty, occupied slots are untouched. */
  ghost predicate CarriedOut(before: seq<Slot>, after: seq<Slot>, trials: seq<Trial>, plan: seq<Placement>) {
    && |after| == |before|
    && (forall a :: 0 <= a < |plan| ==>
          plan[a].slot < |after| && plan[a].at < |trials| && Holds(after[plan[a].slot], trials[plan[a].at]))
    && (forall i :: 0 <= i < |before| && !Planned(plan, i) ==>
          if before[i].state.Empty? then after[i].state.Empty? else after[i] == before[i])
  }

  lemma FirstEmpty(slots: seq<Slot>)
    requires Empties(slots) != []
    ensures Empties(slots)[0] < |slots| && slots[Empties(slots)[0]].state.Empty?
  {
  }

  /** A passing entry that starts takes the first empty slot. */
  lemma StartedEffect(s: Sys, p: Params, t: Trial)
    requires Empties(s.slots) != [] && t.startOk
    ensures var i := Empties(s.slots)[0]; var s' := Tried(s, p, t);
      && Holds(s'.slots[i], t) && s'.slots == s.slots[i := s'.slots[i]]
      && Empties(s'.slots) == Empties(s.slots)[1..]
      && Endpoints(s'.slots) == Endpoints(s.slots) + {t.Endpoint()}
      && (Settled(s.slots) ==> Settled(s'.slots))
  {
    FirstEmpty(s.slots);
    var i := Empties(s.slots)[0];
    var s' := Tried(s, p, t);
    WhereDropFirst(s.slots, InState({Empty}), s'.slots[i]);
    EndpointsGrow(s.slots, i, s'.slots[i], t);
  }

  /** A passing entry that does not start leaves a cleared slot behind. */
  lemma StartFailedEffect(s: Sys, p: Params, t: Trial)
    requires Empties(s.slots) != [] && !t.startOk
    ensures var i := Empties(s.slots)[0]; var s' := Tried(s, p, t);
      && s'.slots == s.slots[i := EMPTY_SLOT]
      && Empties(s'.slots) == Empties(s.slots)
      && Endpoints(s'.slots) == Endpoints(s.slots)
      && (Settled(s.slots) ==> Settled(s'.slots))
  {
    FirstEmpty(s.slots);
    var i := Empties(s.slots)[0];
    WhereSame(s.slots, InState({Empty}), i, EMPTY_SLOT);
    EndpointsStay(s.slots, i);
  }

  lemma EndpointsGrow(slots: seq<Slot>, i: nat, x: Slot, t: Trial)
    requires i < |slots| && slots[i].state.Empty? && Holds(x, t)
    ensures Endpoints(slots[i := x]) == Endpoints(slots) + {t.Endpoint()}
  {
    var after := slots[i := x];
    forall e | e in Endpoints(slots) + {t.Endpoint()} ensures e in Endpoints(after) {
      if e != t.Endpoint() {
        var j :| 0 <= j < |slots| && slots[j].Serving() && slots[j].config.Some? &&
          e == (slots[j].config.value.server, slots[j].config.value.port);
        assert after[j] == slots[j];
      } else {
        assert after[i] == x && e == (x.config.value.server, x.config.value.port);
      }
    }
    forall e | e in Endpoints(after) ensures e in Endpoints(slots) + {t.Endpoint()} {
      var j :| 0 <= j < |after| && after[j].Serving() && after[j].config.Some? &&
        e == (after[j].config.value.server, after[j].config.value.port);
      assert j != i ==> after[j] == slots[j];
    }
  }

  lemma EndpointsStay(slots: seq<Slot>, i: nat)
    requires i < |slots| && slots[i].state.Empty?
    ensures Endpoints(slots[i := EMPTY_SLOT]) == Endpoints(slots)
  {
    var after := slots[i := EMPTY_SLOT];
    assert forall j :: 0 <= j < |slots| && (slots[j].Serving() || after[j].Serving()) ==> after[j] == slots[j];
    forall e | e in Endpoints(slots) ensures e in Endpoints(after) {
      var j :| 0 <= j < |slots| && slots[j].Serving() && slots[j].config.Some? &&
        e == (slots[j].config.value.server, slots[j].config.value.port);
      assert after[j] == slots[j];
    }
  }

  /** In a settled pool as large as the wanted count, "enough slots serve" and
      "no slot is empty" are the same. */
  lemma FullIffNoEmpty(slots: seq<Slot>)
    requires Settled(slots)
    ensures |ServingSlots(slots)| >= |slots| <==> Empties(slots) == []
  {
    WhereIsAll(slots, InState({Active, Draining}));
    NoEmptyIff(slots);
    assert forall i :: 0 <= i < |slots| ==> (InState({Active, Draining})(slots[i]) <==> !slots[i].state.Empty?);
  }

  lemma NoEmptyIff(slots: seq<Slot>)
    ensures Empties(slots) == [] <==> forall i :: 0 <= i < |slots| ==> !slots[i].state.Empty?
  {
    var e := Empties(slots);
    WhereMembers(slots, InState({Empty}));
    if e != [] { assert e[0] in e; }
  }

  function Left(p: Params, tested: nat): nat {
    if tested < p.Budget() then p.Budget() - tested else 0
  }

  /** The loop ended with `f` after starting at entry `k`: it carried out the plan
      within the budget left, and an empty slot remains only when the budget or the
      subscription ran out. */
  ghost predicate Fits(before: seq<Slot>, f: Filled, trials: seq<Trial>, k: nat, plan: seq<Placement>, left: nat) {
    && CarriedOut(before, f.sys.slots, trials, plan)
    && Settled(f.sys.slots)
    && |f.results| <= left
    && (Empties(f.sys.slots) != [] ==> k + f.used == |trials| || |f.results| == left)
  }

  function Plan(s: Sys, p: Params, trials: seq<Trial>, k: nat, tested: nat): seq<Placement> {
    FirstFit(trials, k, Empties(s.slots), Endpoints(s.slots), p, Left(p, tested))
  }

  /** The fill loop is first fit: same slots, same entries, nothing else touched. */
  lemma {:induction false} FillIsFirstFit(s: Sys, p: Params, trials: seq<Trial>, k: nat, tested: nat)
    requires k <= |trials| && Settled(s.slots) && p.wanCount == |s.slots|
    ensures Fits(s.slots, Fill(s, p, trials[k..], tested), trials, k, Plan(s, p, trials, k, tested), Left(p, tested))
    decreases |trials| - k
  {
    if k == |trials| || Stops(s.slots, p, tested) {
      StopsHere(s, p, trials, k, tested);
    } else if Skipped(s.slots, trials[k]) {
      FillIsFirstFit(s, p, trials, k + 1, tested);
      SkipStep(s, p, trials, k, tested);
      FitsAfterPass(s.slots, Fill(s, p, trials[k + 1..], tested), trials, k, Plan(s, p, trials, k + 1, tested),
        Left(p, tested), []);
    } else if !Passes(p, trials[k]) {
      FillIsFirstFit(s, p, trials, k + 1, tested + 1);
      FailStep(s, p, trials, k, tested);
      FitsAfterPass(s.slots, Fill(s, p, trials[k + 1..], tested + 1), trials, k, Plan(s, p, trials, k + 1, tested + 1),
        Left(p, tested + 1), [trials[k].Result()]);
    } else {
      FullIffNoEmpty(s.slots);
      SettledAfter(s, p, trials[k]);
      FillIsFirstFit(Tried(s, p, trials[k]), p, trials, k + 1, tested + 1);
      var s' := Tried(s, p, trials[k]);
      PlaceStep(s, p, trials, k, tested, Fill(s', p, trials[k + 1..], tested + 1),
        Plan(s', p, trials, k + 1, tested + 1));
    }
  }

  lemma SettledAfter(s: Sys, p: Params, t: Trial)
    requires Empties(s.slots) != [] && Settled(s.slots)
    ensures Settled(Tried(s, p, t).slots)
  {
    if t.startOk { StartedEffect(s, p, t); } else { StartFailedEffect(s, p, t); }
  }

  lemma StopsHere(s: Sys, p: Params, trials: seq<Trial>, k: nat, tested: nat)
    requires k <= |trials| && Settled(s.slots) && p.wanCount == |s.slots|
    requires k == |trials| || Stops(s.slots, p, tested)
    ensures Fits(s.slots, Fill(s, p, trials[k..], tested), trials, k, Plan(s, p, trials, k, tested), Left(p, tested))
  {
    assert k < |trials| ==> trials[k..][0] == trials[k];
    assert Fill(s, p, trials[k..], tested) == Filled(s, [], 0);
    assert Plan(s, p, trials, k, tested) == [];
  }

  /** One entry that does not end the loop. */
  lemma FillStep(s: Sys, p: Params, trials: seq<Trial>, k: nat, tested: nat, m: Move)
    requires k < |trials| && m == TryOne(s, p, trials[k], tested) && !m.stop
    ensures Fill(s, p, trials[k..], tested) == Look(Fill(m.sys, p, trials[k + 1..], tested + |m.result|), m.result)
  {
    FillHead(s, p, trials, k, tested);
  }

  lemma SkipStep(s: Sys, p: Params, trials: seq<Trial>, k: nat, tested: nat)
    requires k < |trials| && !Stops(s.slots, p, tested) && Skipped(s.slots, trials[k])
    ensures Fill(s, p, trials[k..], tested) == Look(Fill(s, p, trials[k + 1..], tested), [])
    ensures Plan(s, p, trials, k, tested) == Plan(s, p, trials, k + 1, tested)
  {
    FillStep(s, p, trials, k, tested, Move(s, [], false));
    ServedIffEndpoint(s.slots, trials[k].config.server, trials[k].config.port);
  }

  lemma FailStep(s: Sys, p: Params, trials: seq<Trial>, k: nat, tested: nat)
    requires k < |trials| && !Stops(s.slots, p, tested) && !Skipped(s.slots, trials[k]) && !Passes(p, trials[k])
    ensures Fill(s, p, trials[k..], tested) == Look(Fill(s, p, trials[k + 1..], tested + 1), [trials[k].Result()])
    ensures Plan(s, p, trials, k, tested) == Plan(s, p, trials, k + 1, tested + 1)
  {
    FillStep(s, p, trials, k, tested, Move(s, [trials[k].Result()], false));
    ServedIffEndpoint(s.slots, trials[k].config.server, trials[k].config.port);
  }

  lemma FitsAfterPass(before: seq<Slot>, rest: Filled, trials: seq<Trial>, k: nat, plan: seq<Placement>, left: nat,
                      results: seq<TestResult>)
    requires Fits(before, rest, trials, k + 1, plan, left)
    ensures Fits(before, Look(rest, results), trials, k, plan, left + |results|)
  {
  }

  lemma PassStep(s: Sys, p: Params, trials: seq<Trial>, k: nat, tested: nat)
    requires k < |trials| && !Stops(s.slots, p, tested) && !Skipped(s.slots, trials[k]) && Passes(p, trials[k]) &&
      Empties(s.slots) != []
    ensures Fill(s, p, trials[k..], tested) ==
      Look(Fill(Tried(s, p, trials[k]), p, trials[k + 1..], tested + 1), [trials[k].Result()])
  {
    FillStep(s, p, trials, k, tested, Move(Tried(s, p, trials[k]), [trials[k].Result()], false));
  }

  lemma PlanStep(s: Sys, p: Params, trials: seq<Trial>, k: nat, tested: nat)
    requires k < |trials| && !Stops(s.slots, p, tested) && !Skipped(s.slots, trials[k]) && Passes(p, trials[k]) &&
      Empties(s.slots) != []
    ensures Plan(s, p, trials, k, tested) ==
      (if trials[k].startOk then [Placement(Empties(s.slots)[0], k)] else [])
      + Plan(Tried(s, p, trials[k]), p, trials, k + 1, tested + 1)
  {
    ServedIffEndpoint(s.slots, trials[k].config.server, trials[k].config.port);
    if trials[k].startOk { StartedEffect(s, p, trials[k]); } else { StartFailedEffect(s, p, trials[k]); }
  }

  lemma CarriedOutStep(s: Sys, p: Params, trials: seq<Trial>, k: nat, after: seq<Slot>, plan: seq<Placement>)
    requires k < |trials| && Empties(s.slots) != [] && CarriedOut(Tried(s, p, trials[k]).slots, after, trials, plan)
    requires trials[k].startOk ==> !Planned(plan, Empties(s.slots)[0])
    ensures CarriedOut(s.slots, after, trials,
                       (if trials[k].startOk then [Placement(Empties(s.slots)[0], k)] else []) + plan)
  {
    FirstEmpty(s.slots);
    var i := Empties(s.slots)[0];
    if trials[k].startOk {
      StartedEffect(s, p, trials[k]);
      ConsCarriedOut(s.slots, Tried(s, p, trials[k]).slots, after, trials, Placement(i, k), plan);
    } else {
      StartFailedEffect(s, p, trials[k]);
      ClearedCarriedOut(s.slots, i, after, trials, plan);
      assert [] + plan == plan;
    }
  }

  lemma PlaceStep(s: Sys, p: Params, trials: seq<Trial>, k: nat, tested: nat, rest: Filled, plan: seq<Placement>)
    requires k < |trials| && !Stops(s.slots, p, tested) && !Skipped(s.slots, trials[k]) && Passes(p, trials[k]) &&
      Empties(s.slots) != []
    requires rest == Fill(Tried(s, p, trials[k]), p, trials[k + 1..], tested + 1)
    requires plan == Plan(Tried(s, p, trials[k]), p, trials, k + 1, tested + 1)
    requires Fits(Tried(s, p, trials[k]).slots, rest, trials, k + 1, plan, Left(p, tested + 1))
    ensures Fits(s.slots, Fill(s, p, trials[k..], tested), trials, k, Plan(s, p, trials, k, tested), Left(p, tested))
  {
    PassStep(s, p, trials, k, tested);
    PlanStep(s, p, trials, k, tested);
    if trials[k].startOk {
      StartedEffect(s, p, trials[k]);
      RestAvoidsFirst(s, p, trials, k, Endpoints(Tried(s, p, trials[k]).slots), Left(p, tested + 1));
    }
    CarriedOutStep(s, p, trials, k, rest.sys.slots, plan);
    FitsAfterPlan(s.slots, rest, trials, k, Plan(s, p, trials, k, tested), Left(p, tested + 1), trials[k].Result());
  }

  lemma FitsAfterPlan(before: seq<Slot>, rest: Filled, trials: seq<Trial>, k: nat, plan: seq<Placement>, left: nat,
                      result: TestResult)
    requires CarriedOut(before, rest.sys.slots, trials, plan) && Settled(rest.sys.slots) && |rest.results| <= left
    requires Empties(rest.sys.slots) != [] ==> k + 1 + rest.used == |trials| || |rest.results| == left
    ensures Fits(before, Look(rest, [result]), trials, k, plan, left + 1)
  {
  }

  lemma RestAvoidsFirst(s: Sys, p: Params, trials: seq<Trial>, k: nat, served: set<(string, int)>, budget: nat)
    requires Empties(s.slots) != []
    ensures !Planned(FirstFit(trials, k + 1, Empties(s.slots)[1..], served, p, budget), Empties(s.slots)[0])
  {
    var free := Empties(s.slots);
    FirstFitIsSound(trials, k + 1, free[1..], served, p, budget);
    WhereAscends(s.slots, InState({Empty}));
    var plan := FirstFit(trials, k + 1, free[1..], served, p, budget);
    assert forall a :: 0 <= a < |plan| ==> plan[a].slot == free[1..][a] == free[a + 1];
  }

  lemma ConsCarriedOut(before: seq<Slot>, mid: seq<Slot>, after: seq<Slot>, trials: seq<Trial>, first: Placement,
                       rest: seq<Placement>)
    requires first.slot < |before| == |mid| && first.at < |trials|
    requires forall i :: 0 <= i < |before| && i != first.slot ==> mid[i] == before[i]
    requires CarriedOut(mid, after, trials, rest) && !Planned(rest, first.slot) &&
      Holds(mid[first.slot], trials[first.at])
    ensures CarriedOut(before, after, trials, [first] + rest)
  {
    var plan := [first] + rest;
    assert after[first.slot] == mid[first.slot];
    forall a | 0 <= a < |plan|
      ensures plan[a].slot < |after| && plan[a].at < |trials| && Holds(after[plan[a].slot], trials[plan[a].at])
    {
      if a > 0 { assert plan[a] == rest[a - 1]; }
    }
    forall i | 0 <= i < |before| && !Planned(plan, i)
      ensures if before[i].state.Empty? then after[i].state.Empty? else after[i] == before[i]
    {
      PlannedCons(first, rest, i);
    }
  }

  lemma PlannedCons(first: Placement, rest: seq<Placement>, i: nat)
    ensures Planned([first] + rest, i) <==> first.slot == i || Planned(rest, i)
  {
    var plan := [first] + rest;
    assert plan[0] == first;
    if Planned(rest, i) {
      var a :| 0 <= a < |rest| && rest[a].slot == i;
      assert plan[a + 1].slot == i;
    }
  }

  lemma ClearedCarriedOut(before: seq<Slot>, i: nat, after: seq<Slot>, trials: seq<Trial>, plan: seq<Placement>)
    requires i < |before| && before[i].state.Empty? && CarriedOut(before[i := EMPTY_SLOT], after, trials, plan)
    ensures CarriedOut(before, after, trials, plan)
  {
    assert forall j :: 0 <= j < |before| && j != i ==> before[i := EMPTY_SLOT][j] == before[j];
  }

  function Listing(m: Move, k: nat): seq<nat> {
    if m.result == [] then [] else [k]
  }

  /** Positions of the entries tested from entry `k` on, in order. */
  function TestedFrom(s: Sys, p: Params, trials: seq<Trial>, k: nat, tested: nat): (at: seq<nat>)
    requires k <= |trials|
    ensures forall a :: 0 <= a < |at| ==> k <= at[a] < |trials|
    ensures forall a, b :: 0 <= a < b < |at| ==> at[a] < at[b]
    decreases |trials| - k
  {
    if k == |trials| then []
    else
      var m := TryOne(s, p, trials[k], tested);
      Listing(m, k) + if m.stop then [] else TestedFrom(m.sys, p, trials, k + 1, tested + |m.result|)
  }

  /** The results are those of the entries at `at`, one by one, and each of these
      that passed and started is served at the end. */
  ghost predicate Justified(f: Filled, p: Params, trials: seq<Trial>, at: seq<nat>) {
    && |at| == |f.results|
    && forall a :: 0 <= a < |at| ==> at[a] < |trials| && Explains(trials[at[a]], f.results[a], p, f.sys.slots)
  }

  ghost predicate Explains(t: Trial, r: TestResult, p: Params, end: seq<Slot>) {
    t.Result() == r && (Passes(p, t) && t.startOk ==> t.Endpoint() in Endpoints(end))
  }

  /** From `s` the loop ended with `f`: nothing served was lost, and the entries at `at`
      justify the results. */
  ghost predicate Kept(s: Sys, f: Filled, p: Params, trials: seq<Trial>, at: seq<nat>) {
    Endpoints(s.slots) <= Endpoints(f.sys.slots) && Justified(f, p, trials, at)
  }

  lemma KeptLook(s: Sys, rest: Filled, m: Move, p: Params, trials: seq<Trial>, k: nat, at: seq<nat>)
    requires k < |trials| && Kept(m.sys, rest, p, trials, at) && |m.result| <= 1
    requires Endpoints(s.slots) <= Endpoints(m.sys.slots)
    requires forall r :: r in m.result ==> Explains(trials[k], r, p, m.sys.slots)
    ensures Kept(s, Look(rest, m.result), p, trials, Listing(m, k) + at)
  {
    assert m.result != [] ==> m.result[0] in m.result;
  }

  /** Endpoints once served stay served, and every result belongs to the entry tested
      for it. */
  lemma {:induction false} PassedIsServed(s: Sys, p: Params, trials: seq<Trial>, k: nat, tested: nat)
    requires k <= |trials| && Settled(s.slots) && p.wanCount == |s.slots|
    ensures Kept(s, Fill(s, p, trials[k..], tested), p, trials, TestedFrom(s, p, trials, k, tested))
    decreases |trials| - k
  {
    if k == |trials| || Stops(s.slots, p, tested) {
      NoneIsTested(s, p, trials, k, tested);
    } else {
      var m := TryOne(s, p, trials[k], tested);
      OneIsServed(s, p, trials[k], tested);
      PassedIsServed(m.sys, p, trials, k + 1, tested + |m.result|);
      OneMoreIsServed(s, p, trials, k, tested, m);
    }
  }

  /** The results are those of the tested entries, in order and unchanged. */
  lemma ResultsMean(s: Sys, p: Params, trials: seq<Trial>)
    requires Settled(s.slots) && p.wanCount == |s.slots|
    ensures var rs, at := Fill(s, p, trials, 0).results, TestedFrom(s, p, trials, 0, 0);
      |rs| == |at| && forall a :: 0 <= a < |at| ==>
        var t := trials[at[a]];
        rs[a] == TestResult(t.config, t.speed, t.stability, t.failed)
  {
    assert trials[0..] == trials;
    PassedIsServed(s, p, trials, 0, 0);
    var rs, at := Fill(s, p, trials, 0).results, TestedFrom(s, p, trials, 0, 0);
    forall a | 0 <= a < |at| ensures rs[a] == trials[at[a]].Result() {
      assert Explains(trials[at[a]], rs[a], p, Fill(s, p, trials, 0).sys.slots);
    }
  }

  lemma NoneIsTested(s: Sys, p: Params, trials: seq<Trial>, k: nat, tested: nat)
    requires k <= |trials| && (k == |trials| || Stops(s.slots, p, tested))
    ensures Kept(s, Fill(s, p, trials[k..], tested), p, trials, TestedFrom(s, p, trials, k, tested))
  {
    if k < |trials| { FillHead(s, p, trials, k, tested); }
    assert Fill(s, p, trials[k..], tested) == Filled(s, [], 0);
  }

  lemma OneMoreIsServed(s: Sys, p: Params, trials: seq<Trial>, k: nat, tested: nat, m: Move)
    requires k < |trials| && m == TryOne(s, p, trials[k], tested) && !m.stop
    requires Kept(m.sys, Fill(m.sys, p, trials[k + 1..], tested + |m.result|), p, trials,
      TestedFrom(m.sys, p, trials, k + 1, tested + |m.result|))
    requires Endpoints(s.slots) <= Endpoints(m.sys.slots)
    requires forall r :: r in m.result ==> Explains(trials[k], r, p, m.sys.slots)
    ensures Kept(s, Fill(s, p, trials[k..], tested), p, trials, TestedFrom(s, p, trials, k, tested))
  {
    FillStep(s, p, trials, k, tested, m);
    TestedStep(s, p, trials, k, tested, m);
    KeptLook(s, Fill(m.sys, p, trials[k + 1..], tested + |m.result|), m, p, trials, k,
      TestedFrom(m.sys, p, trials, k + 1, tested + |m.result|));
  }

  lemma TestedStep(s: Sys, p: Params, trials: seq<Trial>, k: nat, tested: nat, m: Move)
    requires k < |trials| && m == TryOne(s, p, trials[k], tested) && !m.stop
    ensures TestedFrom(s, p, trials, k, tested) ==
      Listing(m, k) + TestedFrom(m.sys, p, trials, k + 1, tested + |m.result|)
  {
  }

  lemma OneIsServed(s: Sys, p: Params, t: Trial, tested: nat)
    requires Settled(s.slots) && p.wanCount == |s.slots| && !Stops(s.slots, p, tested)
    ensures var m := TryOne(s, p, t, tested);
      && !m.stop && Settled(m.sys.slots) && Endpoints(s.slots) <= Endpoints(m.sys.slots)
      && forall r :: r in m.result ==> Explains(t, r, p, m.sys.slots)
  {
    FullIffNoEmpty(s.slots);
    if !Skipped(s.slots, t) && Passes(p, t) {
      if t.startOk { StartedEffect(s, p, t); } else { StartFailedEffect(s, p, t); }
    }
  }

  /** In a pool of active slots only, the rotation's own check is "some slot serves it". */
  lemma ActiveAtIffServed(slots: seq<Slot>, cfg: ProxyConfig)
    requires |Actives(slots)| == |slots|
    ensures ActiveAt(slots, Actives(slots), cfg) <==> Served(slots, cfg.server, cfg.port)
  {
    WhereIsAll(slots, InState({Active}));
    WhereMembers(slots, InState({Active}));
    var active := Actives(slots);
    forall i | 0 <= i < |slots| && slots[i].Serves(cfg.server, cfg.port) ensures ActiveAt(slots, active, cfg) {
      assert InState({Active})(slots[i]);
      var k :| 0 <= k < |active| && active[k] == i;
    }
    if ActiveAt(slots, active, cfg) {
      var k :| 0 <= k < |active| && active[k] < |slots| && slots[active[k]].config.Some?
        && slots[active[k]].config.value.server == cfg.server && slots[active[k]].config.value.port == cfg.port;
      assert slots[active[k]].Serves(cfg.server, cfg.port);
    }
  }

  /** A slot rotates exactly when every slot is active and some result of this cycle
      passed but is served nowhere. */
  lemma RotationIff(slots: seq<Slot>, p: Params, results: seq<TestResult>)
    requires p.wanCount == |slots| > 0
    ensures RotationTarget(slots, p, results) != -1 <==>
      && (forall i :: 0 <= i < |slots| ==> slots[i].state.Active?)
      && exists r ::
           r in results && !r.failed && r.speed >= p.minimumSpeed && !Served(slots, r.config.server, r.config.port)
  {
    var active := Actives(slots);
    WhereIsAll(slots, InState({Active}));
    if |active| == |slots| {
      var taken := TakenBy(slots, active);
      PickNearFastest(results, p.minimumSpeed, taken);
      var k := Pick(results, p.minimumSpeed, taken);
      if k != -1 {
        ActiveAtIffServed(slots, results[k].config);
        assert results[k] in results && Qualifies(results[k], p.minimumSpeed, taken);
        ChurniestIsFirstMaximum(slots, active);
      } else {
        forall r | r in results && !r.failed && r.speed >= p.minimumSpeed
          ensures Served(slots, r.config.server, r.config.port) {
          var j :| 0 <= j < |results| && results[j] == r;
          assert !Qualifies(results[j], p.minimumSpeed, taken);
          ActiveAtIffServed(slots, r.config);
        }
      }
    }
  }

  /** Entry `j` was tested by the loop on all of `trials`, passed, failed to start, and
      is served by no slot. */
  ghost predicate FailedStart(s: Sys, p: Params, trials: seq<Trial>, j: nat, end: seq<Slot>) {
    && j in TestedFrom(s, p, trials, 0, 0)
    && Passes(p, trials[j]) && !trials[j].startOk
    && !Served(end, trials[j].config.server, trials[j].config.port)
  }

  /** Rotation only follows a failed start: the entry it makes room for was tested
      this cycle, passed, failed to start, and is served by no slot. */
  lemma RotationNeedsFailedStart(s: Sys, p: Params, trials: seq<Trial>)
    requires Settled(s.slots) && p.wanCount == |s.slots| > 0
    requires var f := Fill(s, p, trials, 0); RotationTarget(f.sys.slots, p, f.results) != -1
    ensures var f := Fill(s, p, trials, 0);
      && (forall i :: 0 <= i < |f.sys.slots| ==> f.sys.slots[i].state.Active?)
      && exists j :: FailedStart(s, p, trials, j, f.sys.slots)
  {
    var f := Fill(s, p, trials, 0);
    RotationIff(f.sys.slots, p, f.results);
    assert trials[0..] == trials;
    PassedIsServed(s, p, trials, 0, 0);
    var r :| r in f.results && !r.failed && r.speed >= p.minimumSpeed &&
      !Served(f.sys.slots, r.config.server, r.config.port);
    var a :| 0 <= a < |f.results| && f.results[a] == r;
    var at := TestedFrom(s, p, trials, 0, 0);
    assert Explains(trials[at[a]], r, p, f.sys.slots);
    ServedIffEndpoint(f.sys.slots, r.config.server, r.config.port);
    assert FailedStart(s, p, trials, at[a], f.sys.slots);
  }

  /** And it follows every one, once all slots are active. */
  lemma RotationIffFailedStart(s: Sys, p: Params, trials: seq<Trial>)
    requires Settled(s.slots) && p.wanCount == |s.slots| > 0
    ensures var f := Fill(s, p, trials, 0);
      RotationTarget(f.sys.slots, p, f.results) != -1 <==>
        && (forall i :: 0 <= i < |f.sys.slots| ==> f.sys.slots[i].state.Active?)
        && exists j :: FailedStart(s, p, trials, j, f.sys.slots)
  {
    var f := Fill(s, p, trials, 0);
    if RotationTarget(f.sys.slots, p, f.results) != -1 {
      RotationNeedsFailedStart(s, p, trials);
    }
    if exists j :: FailedStart(s, p, trials, j, f.sys.slots) {
      var j :| FailedStart(s, p, trials, j, f.sys.slots);
      var at := TestedFrom(s, p, trials, 0, 0);
      var a :| 0 <= a < |at| && at[a] == j;
      assert trials[0..] == trials;
      PassedIsServed(s, p, trials, 0, 0);
      assert Explains(trials[at[a]], f.results[a], p, f.sys.slots);
      RotationIff(f.sys.slots, p, f.results);
    }
  }

  lemma NothingFailedToStart(s: Sys, p: Params, trials: seq<Trial>, end: seq<Slot>)
    requires Stops(s.slots, p, 0) || forall j :: 0 <= j < |trials| && Passes(p, trials[j]) ==> trials[j].startOk
    ensures forall j :: !FailedStart(s, p, trials, j, end)
  {
  }

  /** A full pool, or a cycle without a failed start, rotates nothing. */
  lemma NoRotation(s: Sys, p: Params, trials: seq<Trial>)
    requires Settled(s.slots) && p.wanCount == |s.slots| > 0
    requires Empties(s.slots) == [] || forall j :: 0 <= j < |trials| && Passes(p, trials[j]) ==> trials[j].startOk
    ensures var f := Fill(s, p, trials, 0); RotationTarget(f.sys.slots, p, f.results) == -1
  {
    var f := Fill(s, p, trials, 0);
    FullIffNoEmpty(s.slots);
    NothingFailedToStart(s, p, trials, f.sys.slots);
    if RotationTarget(f.sys.slots, p, f.results) != -1 {
      RotationNeedsFailedStart(s, p, trials);
    }
  }

  /** A rotation changes one active slot to draining and nothing else. */
  lemma RotationDrainsOne(slots: seq<Slot>, p: Params, results: seq<TestResult>, now: int)
    ensures var r := Rotated(slots, p, results, now); var i := RotationTarget(slots, p, results);
      && (i == -1 ==> r == slots)
      && (i != -1 ==> r[i].state.Draining? && r[i].drainAt == Some(now) && r[i].cmd == slots[i].cmd)
      && (forall j :: 0 <= j < |slots| && j != i ==> r[j] == slots[j])
      && (i != -1 ==> forall j :: 0 <= j < |slots| && slots[j].state.Active? ==>
        slots[j].stability <= slots[i].stability)
  {
    var i := RotationTarget(slots, p, results);
    if i != -1 {
      var active := Actives(slots);
      ChurniestIsFirstMaximum(slots, active);
      WhereMembers(slots, InState({Active}));
      forall j | 0 <= j < |slots| && slots[j].state.Active? ensures slots[j].stability <= slots[i].stability {
        assert j in active;
        var k :| 0 <= k < |active| && active[k] == j;
        assert Score(slots, active[k]) == slots[j].stability;
      }
    }
  }

  /** `i` has the worst stability score, and is the first to have it. */
  ghost predicate Churns(slots: seq<Slot>, i: nat) {
    && i < |slots|
    && forall j :: 0 <= j < |slots| ==>
         slots[j].stability <= slots[i].stability && (j < i ==> slots[j].stability < slots[i].stability)
  }

  lemma TargetChurns(slots: seq<Slot>, p: Params, results: seq<TestResult>)
    requires p.wanCount == |slots| > 0 && RotationTarget(slots, p, results) != -1
    ensures Churns(slots, RotationTarget(slots, p, results))
  {
    var active, i := Actives(slots), RotationTarget(slots, p, results);
    RotationIff(slots, p, results);
    ChurniestIsFirstMaximum(slots, active);
    WhereMembers(slots, InState({Active}));
    WhereAscends(slots, InState({Active}));
    var k :| FirstMaximum(slots, active, k, i);
    FirstListedChurns(slots, active, k, i);
  }

  lemma FirstListedChurns(slots: seq<Slot>, listed: seq<nat>, k: int, i: nat)
    requires FirstMaximum(slots, listed, k, i) && i < |slots|
    requires forall j :: 0 <= j < |slots| ==> j in listed
    requires forall a, b :: 0 <= a < b < |listed| ==> listed[a] < listed[b]
    ensures Churns(slots, i)
  {
    forall j | 0 <= j < |slots|
      ensures slots[j].stability <= slots[i].stability && (j < i ==> slots[j].stability < slots[i].stability) {
      assert j in listed;
      var m :| 0 <= m < |listed| && listed[m] == j;
      assert Score(slots, listed[m]) == slots[j].stability;
    }
  }

  /** A slot at or above the minimum speed is drained exactly when every slot is active,
      some passing result of this cycle is served nowhere, and the slot that churns
      most happens to be that fast; its speed plays no part in the choice. */
  lemma FastRotationIff(slots: seq<Slot>, p: Params, results: seq<TestResult>)
    requires p.wanCount == |slots| > 0
    ensures var i := RotationTarget(slots, p, results);
      i != -1 && slots[i].speed >= p.minimumSpeed <==>
        && (forall j :: 0 <= j < |slots| ==> slots[j].state.Active?)
        && (exists r ::
              r in results && !r.failed && r.speed >= p.minimumSpeed && !Served(slots, r.config.server, r.config.port))
        && (exists j: nat :: Churns(slots, j) && slots[j].speed >= p.minimumSpeed)
  {
    RotationIff(slots, p, results);
    var i := RotationTarget(slots, p, results);
    if i != -1 {
      TargetChurns(slots, p, results);
      forall j: nat | Churns(slots, j) ensures j == i {
      }
    }
  }

  /** The speed of the replaced slot is never looked at: a slot filled this very
      cycle, however fast, is drained for a slower entry that could not start. */
  lemma FastSlotIsRotatedOut(p: Params, slow: Trial, fast: Trial, next: Handle)
    requires p.wanCount == 1 && p.Budget() >= 2
    requires IsXraySupported(slow.config) && IsXraySupported(fast.config) && slow.Endpoint() != fast.Endpoint()
    requires Passes(p, slow) && Passes(p, fast) && slow.speed < fast.speed && !slow.startOk && fast.startOk
    ensures var f := Fill(Sys([EMPTY_SLOT], Os(map[], next)), p, [slow, fast], 0);
      Holds(f.sys.slots[0], fast) && RotationTarget(f.sys.slots, p, f.results) == 0
  {
    var s := Sys([EMPTY_SLOT], Os(map[], next));
    var s1 := Tried(s, p, slow);
    var s2 := Tried(s1, p, fast);
    FailThenStart(s, p, slow, fast);
    var f := Fill(s, p, [slow, fast], 0);
    assert slow.Result() == f.results[0];
    assert !Served(s2.slots, slow.config.server, slow.config.port);
    RotationIff(s2.slots, p, f.results);
  }

  lemma FailThenStart(s: Sys, p: Params, slow: Trial, fast: Trial)
    requires s.slots == [EMPTY_SLOT] && p.wanCount == 1 && p.Budget() >= 2
    requires IsXraySupported(slow.config) && IsXraySupported(fast.config)
    requires Passes(p, slow) && Passes(p, fast) && !slow.startOk && fast.startOk
    ensures Empties(s.slots) != [] && Empties(Tried(s, p, slow).slots) != []
    ensures var s2 := Tried(Tried(s, p, slow), p, fast);
      && Fill(s, p, [slow, fast], 0) == Filled(s2, [slow.Result(), fast.Result()], 2)
      && |s2.slots| == 1 && Holds(s2.slots[0], fast)
  {
    OneEmpty(s);
    StartFailedEffect(s, p, slow);
    var s1 := Tried(s, p, slow);
    assert s1.slots == [EMPTY_SLOT];
    OneEmpty(s1);
    StartedEffect(s1, p, fast);
    FillOfTwo(s, s1, Tried(s1, p, fast), p, slow, fast);
  }

  lemma FillOfTwo(s: Sys, s1: Sys, s2: Sys, p: Params, a: Trial, b: Trial)
    requires TryOne(s, p, a, 0) == Move(s1, [a.Result()], false) && TryOne(s1, p, b, 1) == Move(s2, [b.Result()], false)
    ensures Fill(s, p, [a, b], 0) == Filled(s2, [a.Result(), b.Result()], 2)
  {
    assert [a, b][0..] == [a, b] && [a, b][1..] == [b] && [b][0..] == [b] && [b][1..] == [];
    FillStep(s, p, [a, b], 0, 0, Move(s1, [a.Result()], false));
    FillStep(s1, p, [b], 0, 1, Move(s2, [b.Result()], false));
    assert Fill(s2, p, [], 2) == Filled(s2, [], 0);
  }

  lemma OneEmpty(s: Sys)
    requires s.slots == [EMPTY_SLOT]
    ensures Empties(s.slots) == [0] && ServingSlots(s.slots) == []
    ensures forall server, port :: !Served(s.slots, server, port)
  {
    assert s.slots[..0] == [];
    assert Where(s.slots, InState({Empty})) == Where(s.slots[..0], InState({Empty})) + [0];
    assert Where(s.slots, InState({Active, Draining})) == Where(s.slots[..0], InState({Active, Draining})) + [];
  }

  // ----- startup -----

  /** On a settled pool the startup loop is the fill loop with a budget it cannot
      exhaust. */
  lemma {:induction false} StartupIsUnboundedFill(s: Sys, p: Params, q: Params, trials: seq<Trial>, k: nat, tested: nat)
    requires tested <= k <= |trials| && Settled(s.slots) && p.wanCount == |s.slots|
    requires q == p.(maxTestPerCycle := |trials|)
    ensures StartupFill(s, p, trials[k..]) == Fill(s, q, trials[k..], tested).sys
    decreases |trials| - k
  {
    if k < |trials| {
      assert trials[k..][0] == trials[k] && trials[k..][1..] == trials[k + 1..];
      FillHead(s, q, trials, k, tested);
      SameMove(s, p, q, trials[k], tested);
      var m := TryOne(s, q, trials[k], tested);
      if !m.stop {
        StartupIsUnboundedFill(m.sys, p, q, trials, k + 1, tested + |m.result|);
      }
    }
  }

  lemma SameMove(s: Sys, p: Params, q: Params, t: Trial, tested: nat)
    requires Settled(s.slots) && p.wanCount == |s.slots|
    requires q == p.(maxTestPerCycle := q.maxTestPerCycle) && tested < q.Budget()
    ensures var m, n := TryAtStartup(s, p, t), TryOne(s, q, t, tested);
      m.sys == n.sys && m.stop == n.stop && Settled(m.sys.slots)
  {
    FullIffNoEmpty(s.slots);
    if Empties(s.slots) != [] { SettledAfter(s, p, t); }
  }

  /** A startup pass promotes by first fit as well, testing every entry until the pool is
      full or the subscription ends. */
  lemma StartupIsFirstFit(s: Sys, p: Params, trials: seq<Trial>)
    requires Settled(s.slots) && p.wanCount == |s.slots|
    ensures var after := StartupPass(s, p, trials).slots;
      && CarriedOut(s.slots, after, trials, FirstFit(trials, 0, Empties(s.slots), Endpoints(s.slots), p, |trials|))
      && Settled(after)
  {
    var q := p.(maxTestPerCycle := |trials|);
    var plan := FirstFit(trials, 0, Empties(s.slots), Endpoints(s.slots), p, |trials|);
    if trials != [] {
      assert trials[0..] == trials;
      StartupIsUnboundedFill(s, p, q, trials, 0, 0);
      FillIsFirstFit(s, q, trials, 0, 0);
      BudgetPlaysNoPart(trials, 0, Empties(s.slots), Endpoints(s.slots), p, q, |trials|);
      var f := Fill(s, q, trials, 0);
      assert Fits(s.slots, f, trials, 0, plan, |trials|);
      SettledPass(s, p, trials, f.sys);
    }
  }

  lemma SettledPass(s: Sys, p: Params, trials: seq<Trial>, f: Sys)
    requires f == StartupFill(s, p, trials) && Settled(f.slots)
    ensures StartupPass(s, p, trials) == f
  {
    WhereNone(f.slots, InState({Testing}));
  }

  /** The plan reads only the speed limit of its parameters. */
  lemma {:induction false} BudgetPlaysNoPart(trials: seq<Trial>, k: nat, free: seq<nat>, served: set<(string, int)>,
                                             p: Params, q: Params, budget: nat)
    requires p.minimumSpeed == q.minimumSpeed
    ensures FirstFit(trials, k, free, served, p, budget) == FirstFit(trials, k, free, served, q, budget)
    decreases |trials| - k
  {
    if k < |trials| && free != [] && budget != 0 {
      var t := trials[k];
      BudgetPlaysNoPart(trials, k + 1, free, served, p, q, budget);
      BudgetPlaysNoPart(trials, k + 1, free, served, p, q, budget - 1);
      BudgetPlaysNoPart(trials, k + 1, free[1..], served + {t.Endpoint()}, p, q, budget - 1);
    }
  }
}
