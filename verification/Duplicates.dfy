/** Endpoints served twice: which runs keep endpoints unique, and how drops break it. */
module Duplicates {
  import opened Base
  import opened WanSpec
  import opened Candidates
  import Protocols
  import opened World
  import opened Cycle
  import opened CycleLaws
  import opened DropRuns
  import opened Runs

  /** If the step is a drop that promotes, no other slot serves the promoted endpoint. */
  ghost predicate PromotesFresh(w: World, step: Step) {
    var c := Promoted(w, step);
    c.Some? ==>
      forall j :: 0 <= j < |w.sys.slots| && j != step.index ==>
        !w.sys.slots[j].Serves(c.value.config.server, c.value.config.port)
  }

  lemma StepUniqueIff(w: World, p: Params, step: Step)
    requires Unique(w.sys.slots)
    ensures Unique(After(w, p, step).sys.slots) <==> PromotesFresh(w, step)
  {
    if !step.DropSlot? {
      StepUnique(w, p, step);
    } else if Promoted(w, step).Some? {
      DropUniqueIff(w, p.basePort, step.index, step.retest, step.startOk);
    } else {
      FewerStaysUnique(w.sys.slots, After(w, p, step).sys.slots);
    }
  }

  /** Along a run no endpoint is ever served twice exactly when every drop that promotes
      does so for an endpoint no other slot serves. */
  lemma RunUniqueIff(n: nat, p: Params, steps: seq<Step>)
    ensures (forall k :: 0 <= k <= |steps| ==> Unique(Run(Fresh(n), p, steps[..k]).sys.slots))
      <==> forall k :: 0 <= k < |steps| ==> PromotesFresh(Run(Fresh(n), p, steps[..k]), steps[k])
  {
    if forall k :: 0 <= k < |steps| ==> PromotesFresh(Run(Fresh(n), p, steps[..k]), steps[k]) {
      forall k | 0 <= k <= |steps| ensures Unique(Run(Fresh(n), p, steps[..k]).sys.slots) {
        FreshStaysUnique(n, p, steps, k);
      }
    }
    if forall k :: 0 <= k <= |steps| ==> Unique(Run(Fresh(n), p, steps[..k]).sys.slots) {
      forall k | 0 <= k < |steps| ensures PromotesFresh(Run(Fresh(n), p, steps[..k]), steps[k]) {
        assert steps[..k + 1][..k] == steps[..k];
        StepUniqueIff(Run(Fresh(n), p, steps[..k]), p, steps[k]);
      }
    }
  }

  lemma {:induction false} FreshStaysUnique(n: nat, p: Params, steps: seq<Step>, k: nat)
    requires k <= |steps|
    requires forall m :: 0 <= m < |steps| ==> PromotesFresh(Run(Fresh(n), p, steps[..m]), steps[m])
    ensures Unique(Run(Fresh(n), p, steps[..k]).sys.slots)
  {
    if k > 0 {
      FreshStaysUnique(n, p, steps, k - 1);
      assert steps[..k][..k - 1] == steps[..k - 1];
      StepUniqueIff(Run(Fresh(n), p, steps[..k - 1]), p, steps[k - 1]);
    }
  }

  // ----- a run that serves one endpoint twice -----

  /** Two suitable entries, the first one faster. */
  ghost predicate Suitable(p: Params, a: Trial, b: Trial) {
    && p.wanCount == 2 && p.Budget() >= 2
    && Protocols.IsXraySupported(a.config) && Protocols.IsXraySupported(b.config)
    && Passes(p, a) && Passes(p, b) && a.startOk && b.startOk && b.speed < a.speed
    && a.Endpoint() != b.Endpoint() && a.config.raw != b.config.raw && b.config.raw != ""
  }

  lemma FreshIsSwept(n: nat, alive: set<Handle>)
    ensures Swept(Fresh(n).sys, 0, 0, alive) == Fresh(n).sys
  {
    var s := Fresh(n).sys;
    WhereNone(s.slots, ExpiredAt(0, 0));
    WhereNone(s.slots, DeadAmong(alive));
  }

  lemma TwoEmpty(s: Sys)
    requires s.slots == [EMPTY_SLOT, EMPTY_SLOT]
    ensures Empties(s.slots) == [0, 1] && ServingSlots(s.slots) == [] && Endpoints(s.slots) == {}
  {
    var one := Sys([EMPTY_SLOT], s.os);
    OneEmpty(one);
    assert s.slots[..1] == one.slots;
  }

  lemma ServingCount(slots: seq<Slot>)
    requires Settled(slots) && Empties(slots) != []
    ensures |ServingSlots(slots)| < |slots|
  {
    FullIffNoEmpty(slots);
  }

  /** The cycle starts both entries, and keeps both as candidates. */
  lemma BothStart(p: Params, a: Trial, b: Trial)
    requires Suitable(p, a, b)
    ensures var f := Fill(Fresh(2).sys, p, [a, b], 0);
      && f.results == [a.Result(), b.Result()]
      && |f.sys.slots| == 2 && Holds(f.sys.slots[0], a) && Holds(f.sys.slots[1], b)
  {
    var s := Fresh(2).sys;
    TwoEmpty(s);
    ServingCount(s.slots);
    ServedIffEndpoint(s.slots, a.config.server, a.config.port);
    StartedEffect(s, p, a);
    var s1 := Tried(s, p, a);
    ServingCount(s1.slots);
    ServedIffEndpoint(s1.slots, b.config.server, b.config.port);
    StartedEffect(s1, p, b);
    FillOfTwo(s, s1, Tried(s1, p, b), p, a, b);
  }

  lemma NothingRotates(p: Params, a: Trial, b: Trial, slots: seq<Slot>, later: int)
    requires p.wanCount == 2 && |slots| == 2 && Holds(slots[0], a) && Holds(slots[1], b)
    ensures Rotated(slots, p, [a.Result(), b.Result()], later) == slots
  {
    RotationIff(slots, p, [a.Result(), b.Result()]);
    assert slots[0].Serves(a.config.server, a.config.port) && slots[1].Serves(b.config.server, b.config.port);
  }

  function CycleOf(a: Trial, b: Trial): Step {
    RunCycle(0, 0, {}, [a, b], 0, [a.Result(), b.Result()])
  }

  lemma AfterCycle(p: Params, a: Trial, b: Trial)
    requires Suitable(p, a, b)
    ensures var w := After(Fresh(2), p, CycleOf(a, b));
      && |w.sys.slots| == 2 && Holds(w.sys.slots[0], a) && Holds(w.sys.slots[1], b)
      && w.candidates == [a.Result(), b.Result()] && w.excluded == {}
  {
    FreshIsSwept(2, {});
    BothStart(p, a, b);
    NothingRotates(p, a, b, Fill(Fresh(2).sys, p, [a, b], 0).sys.slots, 0);
  }

  lemma CycleIsLegal(p: Params, a: Trial, b: Trial, maxLen: nat)
    requires Suitable(p, a, b) && maxLen >= 2
    ensures Legal(Fresh(2), p, maxLen, CycleOf(a, b))
  {
    FreshIsSwept(2, {});
    BothStart(p, a, b);
    TwoAreRanked(a, b);
    RankedIsKept([a.Result(), b.Result()], maxLen);
  }

  lemma TwoAreRanked(a: Trial, b: Trial)
    requires !a.failed && !b.failed && b.speed < a.speed
    ensures Ranked([a.Result(), b.Result()])
  {
  }

  lemma RankedIsKept(rs: seq<TestResult>, maxLen: nat)
    requires Ranked(rs) && |rs| <= maxLen
    ensures Updated([], rs, maxLen, rs)
  {
    assert [] + rs == rs;
    assert RankingOf([] + rs, rs) && Trim(rs, maxLen) == rs;
  }

  lemma DropRepeats(w: World, base: int, a: Trial, b: Trial, retest: TestResult)
    requires |w.sys.slots| == 2 && Holds(w.sys.slots[0], a) && Holds(w.sys.slots[1], b)
    requires w.candidates == [a.Result(), b.Result()] && w.excluded == {} && !a.failed && !retest.failed
    requires a.config.raw != b.config.raw && b.config.raw != ""
    ensures !Unique(Drop(w, 1, base, Some(retest), true).sys.slots)
  {
    FirstIsEligible(a, b);
    assert ExcludedBy(w, 1) == {b.config.raw};
    var after := Drop(w, 1, base, Some(retest), true).sys.slots;
    assert SameEndpoint(after[0], after[1]);
  }

  lemma RunOfTwo(w: World, p: Params, maxLen: nat, x: Step, y: Step)
    requires Legal(w, p, maxLen, x) && Legal(After(w, p, x), p, maxLen, y)
    ensures LegalRun(w, p, maxLen, [x, y]) && Run(w, p, [x, y]) == After(After(w, p, x), p, y)
  {
    assert [x, y][..1] == [x] && [x][..0] == [];
    assert LegalRun(w, p, maxLen, []) && Run(w, p, []) == w;
    assert LegalRun(w, p, maxLen, [x]) && Run(w, p, [x]) == After(w, p, x);
  }

  /** Dropping the second slot excludes only its own entry, so the first entry, still a
      candidate, is started a second time beside itself. */
  lemma DropServesTwice(p: Params, a: Trial, b: Trial, maxLen: nat, retest: TestResult)
    requires Suitable(p, a, b) && maxLen >= 2 && !retest.failed
    ensures var steps := [CycleOf(a, b), DropSlot(1, Some(retest), true)];
      LegalRun(Fresh(2), p, maxLen, steps) && !Unique(Run(Fresh(2), p, steps).sys.slots)
  {
    var drop := DropSlot(1, Some(retest), true);
    CycleIsLegal(p, a, b, maxLen);
    AfterCycle(p, a, b);
    RunOfTwo(Fresh(2), p, maxLen, CycleOf(a, b), drop);
    DropRepeats(After(Fresh(2), p, CycleOf(a, b)), p.basePort, a, b, retest);
  }

  lemma FirstIsEligible(a: Trial, b: Trial)
    requires !a.failed && a.config.raw != b.config.raw
    ensures FirstEligible([a.Result(), b.Result()], {b.config.raw}) == Some(a.Result())
  {
  }
}
