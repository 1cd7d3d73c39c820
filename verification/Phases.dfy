/** Runs in which atomic steps alternate with phases of concurrent drops. */
module Phases {
  import opened WanSpec
  import opened World
  import opened Cycle
  import opened Runs
  import DropProtocol
  import Serial
  import DropRuns

  /** A stretch of a run: one atomic step, or interleaved drops, keepalive and
      connections that last until no call is inside the lock. */
  datatype Phase = Atomic(step: Step) | Interleaved(callers: nat, actions: seq<DropProtocol.Action>)

  ghost function End(w: World, base: int, callers: nat, actions: seq<DropProtocol.Action>): DropProtocol.State {
    DropProtocol.Run(DropProtocol.Start(w.sys, w.candidates, w.excluded, callers), base, actions)
  }

  ghost function AfterPhase(w: World, p: Params, ph: Phase): World {
    match ph
    case Atomic(step) => After(w, p, step)
    case Interleaved(callers, actions) =>
      var s := End(w, p.basePort, callers, actions);
      World(Sys(s.slots, s.os), s.candidates, s.excluded)
  }

  ghost predicate LegalPhase(w: World, p: Params, maxLen: nat, ph: Phase) {
    match ph
    case Atomic(step) => Legal(w, p, maxLen, step)
    case Interleaved(callers, actions) => End(w, p.basePort, callers, actions).lock.None?
  }

  ghost function AfterPhases(w: World, p: Params, phases: seq<Phase>): World {
    if phases == [] then w else AfterPhase(AfterPhases(w, p, phases[..|phases| - 1]), p, phases[|phases| - 1])
  }

  ghost predicate LegalPhases(w: World, p: Params, maxLen: nat, phases: seq<Phase>) {
    phases != [] ==>
      && LegalPhases(w, p, maxLen, phases[..|phases| - 1])
      && LegalPhase(AfterPhases(w, p, phases[..|phases| - 1]), p, maxLen, phases[|phases| - 1])
  }

  /** Conservation over runs in which atomic steps alternate with phases of any
      interleaving of drops, keepalive and connections. */
  lemma {:induction false} PhasesConserve(n: nat, p: Params, maxLen: nat, phases: seq<Phase>)
    requires LegalPhases(Fresh(n), p, maxLen, phases)
    ensures Conserved(AfterPhases(Fresh(n), p, phases).sys, p.basePort)
    decreases |phases|
  {
    if phases != [] {
      var front := phases[..|phases| - 1];
      PhasesConserve(n, p, maxLen, front);
      var w := AfterPhases(Fresh(n), p, front);
      match phases[|phases| - 1]
      case Atomic(step) => StepConserves(w, p, maxLen, step);
      case Interleaved(callers, actions) =>
        DropProtocol.QuietRunsConserve(w.sys, w.candidates, w.excluded, callers, p.basePort, actions);
    }
  }

  ghost predicate FetchedPhase(ph: Phase) {
    ph.Atomic? ==> Fetched(ph.step)
  }

  /** The leak guard over such runs: nothing that serves after a phase, and no candidate,
      leaves straight from this machine. */
  lemma {:induction false} NothingLeaksInPhases(n: nat, p: Params, maxLen: nat, phases: seq<Phase>)
    requires LegalPhases(Fresh(n), p, maxLen, phases)
    requires forall k :: 0 <= k < |phases| ==> FetchedPhase(phases[k])
    ensures Sealed(AfterPhases(Fresh(n), p, phases))
    decreases |phases|
  {
    if phases != [] {
      var front := phases[..|phases| - 1];
      NothingLeaksInPhases(n, p, maxLen, front);
      PhasesConserve(n, p, maxLen, front);
      var w := AfterPhases(Fresh(n), p, front);
      match phases[|phases| - 1]
      case Atomic(step) => StepSealed(w, p, maxLen, step);
      case Interleaved(callers, actions) =>
        var log := Serial.DropsAreSerializable(w, callers, p.basePort, actions);
        Serial.SeriallySealed(w, p.basePort, log);
        Serial.CoresSealed(End(w, p.basePort, callers, actions).slots, Serial.Serially(w, p.basePort, log).sys.slots);
    }
  }

  /** No drop in the phase promotes `raw`. */
  ghost predicate NeverPromotes(w: World, p: Params, ph: Phase, raw: string) {
    match ph
    case Atomic(step) =>
      var c := DropRuns.Promoted(w, step);
      c.Some? ==> c.value.config.raw != raw
    case Interleaved(callers, actions) =>
      exists log ::
        && Serial.Serializes(w, callers, p.basePort, actions, log)
        && forall k :: 0 <= k < |log| ==>
             var c := Serial.PromotedAt(w, p.basePort, log, k);
             c.Some? ==> c.value.config.raw != raw
  }

  lemma {:induction false} RunExcludes(s: DropProtocol.State, base: int, actions: seq<DropProtocol.Action>)
    ensures s.excluded <= DropProtocol.Run(s, base, actions).excluded
    decreases |actions|
  {
    if actions != [] {
      RunExcludes(s, base, actions[..|actions| - 1]);
    }
  }

  lemma {:induction false} PhasesExclude(w: World, p: Params, phases: seq<Phase>, a: nat)
    requires a <= |phases|
    ensures AfterPhases(w, p, phases[..a]).excluded <= AfterPhases(w, p, phases).excluded
    decreases |phases|
  {
    if a == |phases| {
      assert phases[..a] == phases;
    } else {
      var front := phases[..|phases| - 1];
      assert front[..a] == phases[..a];
      PhasesExclude(w, p, front, a);
      var before := AfterPhases(w, p, front);
      match phases[|phases| - 1]
      case Atomic(step) => DropRuns.ExcludedGrows(before, p, step);
      case Interleaved(callers, actions) =>
        RunExcludes(DropProtocol.Start(before.sys, before.candidates, before.excluded, callers), p.basePort, actions);
    }
  }

  /** What was excluded at any point is promoted by no drop of any later phase `next`. */
  lemma ExcludedStaysOut(n: nat, p: Params, maxLen: nat, phases: seq<Phase>, a: nat, next: Phase, raw: string)
    requires LegalPhases(Fresh(n), p, maxLen, phases) && a <= |phases|
    ensures raw in AfterPhases(Fresh(n), p, phases[..a]).excluded ==>
      NeverPromotes(AfterPhases(Fresh(n), p, phases), p, next, raw)
  {
    var w := AfterPhases(Fresh(n), p, phases);
    PhasesExclude(Fresh(n), p, phases, a);
    PhasesConserve(n, p, maxLen, phases);
    if raw in w.excluded && next.Interleaved? {
      var log := Serial.DropsAreSerializable(w, next.callers, p.basePort, next.actions);
      forall k | 0 <= k < |log|
        ensures var c := Serial.PromotedAt(w, p.basePort, log, k); c.Some? ==> c.value.config.raw != raw
      {
        Serial.ExcludedIsNotPromoted(w, p.basePort, log, k, raw);
      }
    }
  }

  /** And a drop excludes the non-empty raw text its slot runs on. */
  lemma DroppedIsExcluded(w: World, p: Params, callers: nat, actions: seq<DropProtocol.Action>, log: seq<Serial.Entry>,
                          k: nat)
    requires Serial.Serializes(w, callers, p.basePort, actions, log) && k < |log|
    requires End(w, p.basePort, callers, actions).lock.None?
    requires var raw := DropRuns.RawOf(Serial.Serially(w, p.basePort, log[..k]), log[k].i); raw.Some? && raw.value != ""
    ensures DropRuns.RawOf(Serial.Serially(w, p.basePort, log[..k]), log[k].i).value
      in AfterPhase(w, p, Interleaved(callers, actions)).excluded
  {
    assert log[..k + 1][..k] == log[..k];
    Serial.SeriallyExcludes(w, p.basePort, log, k + 1);
  }
}
