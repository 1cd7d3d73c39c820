/** Repeated drops: what was dropped stays out, and refills run out. */
module DropRuns {
  import opened Base
  import opened World
  import opened Cycle
  import opened Runs

  /** Exclusions are never taken back. */
  lemma ExcludedGrows(w: World, p: Params, step: Step)
    ensures w.excluded <= After(w, p, step).excluded
  {
  }

  lemma {:induction false} ExcludedStays(w: World, p: Params, steps: seq<Step>, a: nat)
    requires a <= |steps|
    ensures Run(w, p, steps[..a]).excluded <= Run(w, p, steps).excluded
    decreases |steps|
  {
    if a == |steps| {
      assert steps[..a] == steps;
    } else {
      var front := steps[..|steps| - 1];
      assert front[..a] == steps[..a];
      ExcludedStays(w, p, front, a);
      ExcludedGrows(Run(w, p, front), p, steps[|steps| - 1]);
    }
  }

  /** The raw text slot `i` runs on. */
  function RawOf(w: World, i: int): Option<string> {
    if 0 <= i < |w.sys.slots| && w.sys.slots[i].config.Some? then Some(w.sys.slots[i].config.value.raw) else None
  }

  /** The config a step promotes by dropping. */
  function Promoted(w: World, step: Step): Option<TestResult> {
    if step.DropSlot? && 0 <= step.index < |w.sys.slots| then DropPromotes(w, step.index, step.retest, step.startOk)
      else None
  }

  /** Once a non-empty raw text has been dropped, no later drop promotes it again,
      whatever cycles and updates come in between. */
  lemma DroppedStaysOut(w: World, p: Params, steps: seq<Step>, a: nat, b: nat)
    requires a < b < |steps| && steps[a].DropSlot?
    requires var raw := RawOf(Run(w, p, steps[..a]), steps[a].index); raw.Some? && raw.value != ""
    ensures var again := Promoted(Run(w, p, steps[..b]), steps[b]);
      again.Some? ==> again.value.config.raw != RawOf(Run(w, p, steps[..a]), steps[a].index).value
  {
    var before := Run(w, p, steps[..a]);
    var raw := RawOf(before, steps[a].index).value;
    assert steps[..a + 1][..a] == steps[..a];
    assert raw in Run(w, p, steps[..a + 1]).excluded;
    assert steps[..b][..a + 1] == steps[..a + 1];
    ExcludedStays(w, p, steps[..b], a + 1);
  }

  /** Raw texts a drop could still promote. */
  function Eligible(w: World): set<string> {
    set r | r in w.candidates && !r.failed && r.config.raw !in w.excluded :: r.config.raw
  }

  /** Eligible raw texts not already running on slot `i`. */
  function Reserve(w: World, i: nat): set<string> {
    Eligible(w) - if RawOf(w, i).Some? then {RawOf(w, i).value} else {}
  }

  /** Drops that refilled slot `i`. */
  ghost function Refills(w: World, p: Params, steps: seq<Step>, i: nat): nat {
    if steps == [] then 0
    else
      var front, last := steps[..|steps| - 1], steps[|steps| - 1];
      Refills(w, p, front, i) + Refilled(Run(w, p, front), last, i)
  }

  lemma EligibleAfterDrop(w: World, p: Params, i: nat, retest: Option<TestResult>, startOk: bool)
    requires i < |w.sys.slots| && "" !in Eligible(w)
    ensures Eligible(Drop(w, i, p.basePort, retest, startOk)) == Reserve(w, i)
  {
    var w' := Drop(w, i, p.basePort, retest, startOk);
    forall raw | raw in Reserve(w, i) ensures raw in Eligible(w') {
      var r :| r in w.candidates && !r.failed && r.config.raw !in w.excluded && raw == r.config.raw;
      assert r.config.raw !in w'.excluded;
    }
    forall raw | raw in Eligible(w') ensures raw in Reserve(w, i) {
      var r :| r in w'.candidates && !r.failed && r.config.raw !in w'.excluded && raw == r.config.raw;
      assert raw in Eligible(w);
    }
  }

  /** A drop of slot `i` that promotes uses up one raw text of its reserve. */
  lemma DropUsesReserve(w: World, p: Params, i: nat, retest: Option<TestResult>, startOk: bool)
    requires i < |w.sys.slots| && "" !in Eligible(w)
    ensures var w' := Drop(w, i, p.basePort, retest, startOk); var c := DropPromotes(w, i, retest, startOk);
      if c.Some? then c.value.config.raw in Reserve(w, i) && Reserve(w', i) == Reserve(w, i) - {c.value.config.raw}
      else Reserve(w', i) == Reserve(w, i)
  {
    var w' := Drop(w, i, p.basePort, retest, startOk);
    var c := DropPromotes(w, i, retest, startOk);
    EligibleAfterDrop(w, p, i, retest, startOk);
    if c.Some? {
      assert RawOf(w', i) == Some(c.value.config.raw);
      assert c.value.config.raw in Eligible(w');
    } else {
      assert RawOf(w', i) == None;
    }
  }

  /** From `w` to `w'` the reserve of slot `i` lost at least `used` raw texts. */
  ghost predicate Shrunk(w: World, w': World, used: nat, i: nat) {
    "" !in Eligible(w') && |Reserve(w', i)| + used <= |Reserve(w, i)|
  }

  lemma DropElsewhere(w: World, p: Params, i: nat, j: nat, retest: Option<TestResult>, startOk: bool)
    requires i < |w.sys.slots| && j < |w.sys.slots| && i != j && "" !in Eligible(w)
    ensures Shrunk(w, Drop(w, j, p.basePort, retest, startOk), 0, i)
  {
    EligibleAfterDrop(w, p, j, retest, startOk);
    assert RawOf(Drop(w, j, p.basePort, retest, startOk), i) == RawOf(w, i);
    SubsetSize(Reserve(Drop(w, j, p.basePort, retest, startOk), i), Reserve(w, i));
  }

  lemma DropHere(w: World, p: Params, i: nat, retest: Option<TestResult>, startOk: bool)
    requires i < |w.sys.slots| && "" !in Eligible(w)
    ensures Shrunk(w, Drop(w, i, p.basePort, retest, startOk), if DropPromotes(w, i, retest, startOk).Some? then 1
      else 0, i)
  {
    EligibleAfterDrop(w, p, i, retest, startOk);
    DropUsesReserve(w, p, i, retest, startOk);
  }

  lemma KeepaliveKeepsReserve(w: World, p: Params, probes: seq<Probe>, i: nat)
    requires i < |w.sys.slots|
    ensures Eligible(After(w, p, Keepalive(probes))) == Eligible(w) &&
      Reserve(After(w, p, Keepalive(probes)), i) == Reserve(w, i)
  {
    assert RawOf(After(w, p, Keepalive(probes)), i) == RawOf(w, i);
  }

  function Refilled(w: World, step: Step, i: nat): (n: nat) {
    if step.DropSlot? && step.index == i && Promoted(w, step).Some? then 1 else 0
  }

  lemma DropShrinks(w: World, p: Params, j: int, retest: Option<TestResult>, startOk: bool, i: nat)
    requires i < |w.sys.slots| && "" !in Eligible(w)
    ensures Shrunk(w, After(w, p, DropSlot(j, retest, startOk)), Refilled(w, DropSlot(j, retest, startOk), i), i)
  {
    if 0 <= j < |w.sys.slots| {
      assert After(w, p, DropSlot(j, retest, startOk)) == Drop(w, j, p.basePort, retest, startOk);
      if i == j { DropHere(w, p, i, retest, startOk); } else { DropElsewhere(w, p, i, j, retest, startOk); }
    }
  }

  /** Each refill uses up one raw text of the slot's reserve; nothing adds to it. */
  lemma ReserveShrinks(w: World, p: Params, step: Step, i: nat)
    requires (step.DropSlot? || step.Keepalive?) && i < |w.sys.slots| && "" !in Eligible(w)
    ensures Shrunk(w, After(w, p, step), Refilled(w, step, i), i)
  {
    match step
    case Keepalive(probes) => KeepaliveKeepsReserve(w, p, probes, i);
    case DropSlot(j, retest, startOk) => DropShrinks(w, p, j, retest, startOk, i);
  }

  /** Between cycles a slot is refilled at most once per raw text that was eligible
      at the start. */
  lemma RefillsBounded(w: World, p: Params, steps: seq<Step>, i: nat)
    requires i < |w.sys.slots| && "" !in Eligible(w)
    requires forall k :: 0 <= k < |steps| ==> steps[k].DropSlot? || steps[k].Keepalive?
    ensures Refills(w, p, steps, i) <= |Eligible(w)|
  {
    RefillsPlusReserve(w, p, steps, i);
    SubsetSize(Reserve(w, i), Eligible(w));
  }

  lemma {:induction false} RefillsPlusReserve(w: World, p: Params, steps: seq<Step>, i: nat)
    requires i < |w.sys.slots| && "" !in Eligible(w)
    requires forall k :: 0 <= k < |steps| ==> steps[k].DropSlot? || steps[k].Keepalive?
    ensures "" !in Eligible(Run(w, p, steps))
    ensures Refills(w, p, steps, i) + |Reserve(Run(w, p, steps), i)| <= |Reserve(w, i)|
    decreases |steps|
  {
    if steps != [] {
      var front, last := steps[..|steps| - 1], steps[|steps| - 1];
      RefillsPlusReserve(w, p, front, i);
      ReserveShrinks(Run(w, p, front), p, last, i);
    }
  }

  /** Dropping a slot cannot exclude the empty raw text. */
  lemma EmptyRawSurvives(w: World, p: Params, i: nat, c: TestResult)
    requires i < |w.sys.slots| && "" in Eligible(w) && !c.failed
    ensures Refilled(w, DropSlot(i, Some(c), true), i) == 1
    ensures "" in Eligible(After(w, p, DropSlot(i, Some(c), true)))
  {
    var r :| r in w.candidates && !r.failed && r.config.raw !in w.excluded && r.config.raw == "";
    assert r.config.raw !in ExcludedBy(w, i);
  }

  function Drops(i: nat, c: TestResult, n: nat): (r: seq<Step>)
    ensures |r| == n && forall k :: 0 <= k < n ==> r[k] == DropSlot(i, Some(c), true)
  {
    if n == 0 then [] else Drops(i, c, n - 1) + [DropSlot(i, Some(c), true)]
  }

  /** So a candidate without raw text can be promoted without end. */
  lemma {:induction false} EmptyRawRefillsForever(w: World, p: Params, i: nat, c: TestResult, n: nat)
    requires i < |w.sys.slots| && "" in Eligible(w) && !c.failed
    ensures Refills(w, p, Drops(i, c, n), i) == n && "" in Eligible(Run(w, p, Drops(i, c, n)))
  {
    if n > 0 {
      EmptyRawRefillsForever(w, p, i, c, n - 1);
      assert Drops(i, c, n)[..n - 1] == Drops(i, c, n - 1);
      EmptyRawSurvives(Run(w, p, Drops(i, c, n - 1)), p, i, c);
    }
  }

  /** The bound holds for every run exactly when no eligible candidate lacks a raw text. */
  lemma RefillsBoundedIff(w: World, p: Params, i: nat)
    requires i < |w.sys.slots|
    ensures "" !in Eligible(w) <==>
      forall steps: seq<Step> | forall k :: 0 <= k < |steps| ==> steps[k].DropSlot? || steps[k].Keepalive? ::
        Refills(w, p, steps, i) <= |Eligible(w)|
  {
    if "" in Eligible(w) {
      var c :| c in w.candidates && !c.failed;
      EmptyRawRefillsForever(w, p, i, c, |Eligible(w)| + 1);
    } else {
      forall steps: seq<Step> | forall k :: 0 <= k < |steps| ==> steps[k].DropSlot? || steps[k].Keepalive?
        ensures Refills(w, p, steps, i) <= |Eligible(w)|
      {
        RefillsBounded(w, p, steps, i);
      }
    }
  }

  /** No world reached from subscription texts has such a candidate, so there the bound
      always holds. */
  lemma ReachableRefillsBounded(n: nat, p: Params, maxLen: nat, past: seq<Step>, steps: seq<Step>, i: nat)
    requires i < n && LegalRun(Fresh(n), p, maxLen, past)
    requires forall k :: 0 <= k < |past| ==> Fetched(past[k])
    requires forall k :: 0 <= k < |steps| ==> steps[k].DropSlot? || steps[k].Keepalive?
    ensures var w := Run(Fresh(n), p, past); Refills(w, p, steps, i) <= |Eligible(w)|
  {
    var w := Run(Fresh(n), p, past);
    NothingLeaks(n, p, maxLen, past);
    RefillsBounded(w, p, steps, i);
  }
}
