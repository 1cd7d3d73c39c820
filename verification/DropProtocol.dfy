/** Drop-and-replace at the grain of its lock sections: any number of callers,
    interleaved with keepalive passes and connection handlers. */
module DropProtocol {
  import opened Base
  import opened WanSpec
  import opened Candidates
  import opened World
  import Runs

  /** Why a slot is being cleared. */
  datatype Why = ForDrop | ForStartFailure | ForActivateFailure

  /** Where one caller is; each constructor is the step it takes next. */
  datatype Pc =
    | Idle
    | Waiting(i: nat)
    | Reading(i: nat)
    | Excluding(i: nat, current: Option<ProxyConfig>)
    | FetchingCmd(i: nat, why: Why)
    | Stopping(i: nat, cmd: Option<Handle>, why: Why)
    | Clearing(i: nat, why: Why)
    | Choosing(i: nat)
    | Retesting(i: nat, config: ProxyConfig)
    | Preparing(i: nat, config: ProxyConfig, result: TestResult)
    | Starting(i: nat, result: TestResult)
    | Activating(i: nat, handle: Handle, result: TestResult)
    | Undoing(i: nat, handle: Handle)
    | RecordingSpeed(i: nat, result: TestResult)
    | RecordingStability(i: nat, result: TestResult)
    | Returning(reply: Option<DropError>)
    | Done(reply: Option<DropError>)
  {
    /** Between taking and releasing the replace lock. */
    predicate Inside() {
      !Idle? && !Waiting? && !Done?
    }
  }

  datatype State = State(slots: seq<Slot>, os: Os, candidates: seq<TestResult>, excluded: set<string>,
    lock: Option<nat>, pcs: seq<Pc>)

  /** One step of one actor. Keepalive and connection handlers may touch any slot at
      any time, which covers every pass and every handler. */
  datatype Action =
    | Call(caller: nat, i: nat)
    | Advance(caller: nat, retest: Option<TestResult>, startOk: bool)
    | ProbeFailed(i: nat)
    | MarkUnhealthy(i: nat, now: int)
    | ProbePassed(i: nat)
    | NoteExit(i: nat, ip: string, at: int)
    | BeginConn(i: nat)
    | EndConn(i: nat)
    | DialFailed(i: nat)
    | RelayDone(i: nat)

  /** What an actor other than a drop call does to a slot. */
  function Touch(s: Slot, a: Action): Slot {
    match a
    case ProbeFailed(_) => s.Failed()
    case MarkUnhealthy(_, now) => s.Drained(now)
    case ProbePassed(_) => s.Succeeded()
    case NoteExit(_, ip, at) => s.(exitIp := ip, lastProbe := Some(at))
    case BeginConn(_) => s.Begun()
    case EndConn(_) => s.Ended()
    case DialFailed(_) => s.Failed()
    case RelayDone(_) => s.Succeeded()
    case _ => s
  }

  function At(s: State, c: nat, pc: Pc): State
    requires c < |s.pcs|
  {
    s.(pcs := s.pcs[c := pc])
  }

  function Put(s: State, i: nat, x: Slot): State {
    if i < |s.slots| then s.(slots := s.slots[i := x]) else s
  }

  /** The slot a caller's step works on; out-of-range callers never start. */
  function SlotAt(s: State, i: nat): Slot {
    if i < |s.slots| then s.slots[i] else EMPTY_SLOT
  }

  /** The next step of caller `c`. */
  function Stepped(s: State, base: int, c: nat, retest: Option<TestResult>, startOk: bool): State
    requires c < |s.pcs|
  {
    match s.pcs[c]
    case Idle => s
    case Done(_) => s
    case Waiting(i) => if s.lock.None? then At(s.(lock := Some(c)), c, Reading(i)) else s
    case Reading(i) => At(s, c, Excluding(i, SlotAt(s, i).config))
    case Excluding(i, current) =>
      var ex := if current.Some? && current.value.raw != "" then s.excluded + {current.value.raw} else s.excluded;
      At(s.(excluded := ex), c, FetchingCmd(i, ForDrop))
    case FetchingCmd(i, why) => At(s, c, Stopping(i, SlotAt(s, i).cmd, why))
    case Stopping(i, cmd, why) => At(s.(os := s.os.Kill(cmd)), c, Clearing(i, why))
    case Clearing(i, why) =>
      At(Put(s, i, EMPTY_SLOT), c, match why
        case ForDrop => Choosing(i)
        case ForStartFailure => Returning(Some(StartFailed))
        case ForActivateFailure => Returning(Some(ActivateFailed)))
    case Choosing(i) =>
      var best := FirstEligible(s.candidates, s.excluded);
      At(s, c, if best.None? then Returning(Some(NoReplacementCandidate)) else Retesting(i, best.value.config))
    case Retesting(i, config) =>
      At(s, c, if retest.None? || retest.value.failed then Returning(Some(ReplacementTestFailed))
        else Preparing(i, config, retest.value))
    case Preparing(i, config, result) =>
      if SlotAt(s, i).state.Empty? then At(Put(s, i, SlotAt(s, i).Prepared(config)), c, Starting(i, result))
      else At(s, c, Returning(Some(PrepareFailed)))
    case Starting(i, result) =>
      if startOk then At(s.(os := s.os.Spawn(base + i)), c, Activating(i, s.os.next, result))
      else At(s, c, FetchingCmd(i, ForStartFailure))
    case Activating(i, handle, result) =>
      if SlotAt(s, i).state.Testing?
        then At(Put(s, i, SlotAt(s, i).Activated(Some(handle))), c, RecordingSpeed(i, result))
      else At(s, c, Undoing(i, handle))
    case Undoing(i, handle) => At(s.(os := s.os.Kill(Some(handle))), c, FetchingCmd(i, ForActivateFailure))
    case RecordingSpeed(i, result) =>
      At(Put(s, i, SlotAt(s, i).(speed := result.speed)), c, RecordingStability(i, result))
    case RecordingStability(i, result) =>
      At(Put(s, i, SlotAt(s, i).(stability := result.stability)), c, Returning(None))
    case Returning(reply) => At(s.(lock := None), c, Done(reply))
  }

  function Next(s: State, base: int, a: Action): State {
    match a
    case Call(c, i) =>
      if c < |s.pcs| && i < |s.slots| && (s.pcs[c].Idle? || s.pcs[c].Done?) then At(s, c, Waiting(i)) else s
    case Advance(c, retest, startOk) => if c < |s.pcs| then Stepped(s, base, c, retest, startOk) else s
    case _ => if a.i < |s.slots| then s.(slots := s.slots[a.i := Touch(s.slots[a.i], a)]) else s
  }

  function Run(s: State, base: int, actions: seq<Action>): State {
    if actions == [] then s else Next(Run(s, base, actions[..|actions| - 1]), base, actions[|actions| - 1])
  }

  /** The caller inside the lock, or Idle. */
  function Owner(s: State): Pc {
    if s.lock.Some? && s.lock.value < |s.pcs| then s.pcs[s.lock.value] else Idle
  }

  /** How far the owner has brought its slot. */
  datatype Phase =
    | Free
    | Quiet(i: nat)
    | Gone(i: nat)
    | BareEmpty(i: nat)
    | BareTesting(i: nat)
    | Launched(i: nat, handle: Handle)
    | Never

  /** The phase each position stands for; the two error exits stand for Never. */
  function PhaseOf(pc: Pc): Phase {
    match pc
    case Reading(i) => Quiet(i)
    case Excluding(i, _) => Quiet(i)
    case FetchingCmd(i, why) => if why.ForDrop? then Quiet(i) else if why.ForStartFailure? then BareTesting(i)
      else Never
    case Stopping(i, _, why) => if why.ForDrop? then Quiet(i) else if why.ForStartFailure? then BareTesting(i)
      else Never
    case Clearing(i, why) => if why.ForActivateFailure? then Never else Gone(i)
    case Choosing(i) => BareEmpty(i)
    case Retesting(i, _) => BareEmpty(i)
    case Preparing(i, _, _) => BareEmpty(i)
    case Starting(i, _) => BareTesting(i)
    case Activating(i, h, _) => Launched(i, h)
    case Undoing(_, _) => Never
    case RecordingSpeed(i, _) => Quiet(i)
    case RecordingStability(i, _) => Quiet(i)
    case Returning(reply) => if reply == Some(PrepareFailed) || reply == Some(ActivateFailed) then Never else Free
    case _ => Free
  }

  /** A slot between calls, as in runs of atomic steps. */
  ghost predicate AtRest(slots: seq<Slot>, os: Os, base: int, i: nat)
    requires i < |slots|
  {
    Runs.SlotOk(Sys(slots, os), base, i)
  }

  ghost predicate PhaseOk(slots: seq<Slot>, os: Os, base: int, ph: Phase) {
    match ph
    case Free => true
    case Quiet(i) => i < |slots| && AtRest(slots, os, base, i)
    case Gone(i) => i < |slots| && (slots[i].cmd.Some? ==> slots[i].cmd.value !in os.live)
    case BareEmpty(i) => i < |slots| && slots[i].cmd.None? && slots[i].state.Empty?
    case BareTesting(i) => i < |slots| && slots[i].cmd.None? && slots[i].state.Testing?
    case Launched(i, h) => i < |slots| && slots[i].cmd.None? && slots[i].state.Testing? && h in os.live &&
      os.live[h] == base + i
    case Never => false
  }

  /** The owner is at work on slot `i`. */
  predicate Busy(ph: Phase, i: nat) {
    !ph.Free? && !ph.Never? && ph.i == i
  }

  /** A live process is held by the slot of its port or by the caller activating it. */
  ghost predicate Held(slots: seq<Slot>, os: Os, base: int, ph: Phase, h: Handle)
    requires h in os.live
  {
    var i := os.live[h] - base;
    && h < os.next && 0 <= i < |slots|
    && (slots[i].cmd == Some(h) || ph == Launched(i, h))
  }

  /** The shared state while the owner is in phase `ph`. */
  ghost predicate Shared(slots: seq<Slot>, os: Os, base: int, ph: Phase) {
    && PhaseOk(slots, os, base, ph)
    && (forall i :: 0 <= i < |slots| && !Busy(ph, i) ==> AtRest(slots, os, base, i))
    && (forall h :: h in os.live ==> Held(slots, os, base, ph, h))
  }

  ghost predicate CallerOk(s: State, c: nat)
    requires c < |s.pcs|
  {
    && (s.pcs[c].Inside() <==> s.lock == Some(c))
    && (s.pcs[c].Waiting? ==> s.pcs[c].i < |s.slots|)
    && s.pcs[c] != Done(Some(PrepareFailed)) && s.pcs[c] != Done(Some(ActivateFailed))
  }

  ghost predicate Inv(s: State, base: int) {
    && (s.lock.Some? ==> s.lock.value < |s.pcs|)
    && (forall c :: 0 <= c < |s.pcs| ==> CallerOk(s, c))
    && Shared(s.slots, s.os, base, PhaseOf(Owner(s)))
    && (Owner(s).Stopping? ==> Owner(s).cmd == SlotAt(s, Owner(s).i).cmd)
  }

  /** The new slot differs from the old only in what other actors may change. */
  ghost predicate Alike(a: Slot, b: Slot) {
    a.cmd == b.cmd && a.Serving() == b.Serving() && a.state.Empty? == b.state.Empty? &&
      a.state.Testing? == b.state.Testing?
  }

  lemma AlikeKeepsShared(slots: seq<Slot>, os: Os, base: int, ph: Phase, j: nat, x: Slot)
    requires Shared(slots, os, base, ph) && j < |slots| && Alike(slots[j], x)
    ensures Shared(slots[j := x], os, base, ph)
  {
    var after := slots[j := x];
    assert forall i :: 0 <= i < |slots| ==> Alike(slots[i], after[i]);
    forall i | 0 <= i < |after| && !Busy(ph, i) ensures AtRest(after, os, base, i) {
      assert AtRest(slots, os, base, i);
    }
    forall h | h in os.live ensures Held(after, os, base, ph, h) {
      assert Held(slots, os, base, ph, h);
    }
  }

  lemma TouchIsAlike(s: Slot, a: Action)
    ensures Alike(s, Touch(s, a))
  {
  }

  /** Phases that demand the same or less. */
  lemma Relabel(slots: seq<Slot>, os: Os, base: int, i: nat)
    requires i < |slots|
    ensures Shared(slots, os, base, Free) ==> Shared(slots, os, base, Quiet(i))
    ensures Shared(slots, os, base, Quiet(i)) || Shared(slots, os, base, BareEmpty(i)) ==> Shared(slots, os, base, Free)
  {
    forall ph, qh | (ph == Free && qh == Quiet(i)) || (ph == Quiet(i) && qh == Free) ||
      (ph == BareEmpty(i) && qh == Free)
      ensures Shared(slots, os, base, ph) ==> Shared(slots, os, base, qh)
    {
      if Shared(slots, os, base, ph) {
        assert AtRest(slots, os, base, i);
        forall j | 0 <= j < |slots| ensures AtRest(slots, os, base, j) {
          assert j != i ==> !Busy(ph, j);
        }
        forall h | h in os.live ensures Held(slots, os, base, qh, h) {
          assert Held(slots, os, base, ph, h);
        }
      }
    }
  }

  /** Stopping the slot's own process. */
  lemma StopMakesGone(slots: seq<Slot>, os: Os, base: int, ph: Phase, i: nat)
    requires Shared(slots, os, base, ph) && (ph == Quiet(i) || ph == BareTesting(i))
    ensures Shared(slots, os.Kill(slots[i].cmd), base, Gone(i))
  {
    var os' := os.Kill(slots[i].cmd);
    forall j | 0 <= j < |slots| && !Busy(Gone(i), j) ensures AtRest(slots, os', base, j) {
      assert !Busy(ph, j) && AtRest(slots, os, base, j);
    }
    forall h | h in os'.live ensures Held(slots, os', base, Gone(i), h) {
      assert Held(slots, os, base, ph, h);
    }
  }

  lemma ClearMakesBare(slots: seq<Slot>, os: Os, base: int, i: nat)
    requires Shared(slots, os, base, Gone(i))
    ensures Shared(slots[i := EMPTY_SLOT], os, base, BareEmpty(i))
  {
    var after := slots[i := EMPTY_SLOT];
    forall j | 0 <= j < |after| && !Busy(BareEmpty(i), j) ensures AtRest(after, os, base, j) {
      assert !Busy(Gone(i), j) && AtRest(slots, os, base, j);
    }
    forall h | h in os.live ensures Held(after, os, base, BareEmpty(i), h) {
      assert Held(slots, os, base, Gone(i), h);
    }
  }

  lemma PrepareMakesTesting(slots: seq<Slot>, os: Os, base: int, i: nat, cfg: ProxyConfig)
    requires Shared(slots, os, base, BareEmpty(i))
    ensures Shared(slots[i := slots[i].Prepared(cfg)], os, base, BareTesting(i))
  {
    var after := slots[i := slots[i].Prepared(cfg)];
    forall j | 0 <= j < |after| && !Busy(BareTesting(i), j) ensures AtRest(after, os, base, j) {
      assert !Busy(BareEmpty(i), j) && AtRest(slots, os, base, j);
    }
    forall h | h in os.live ensures Held(after, os, base, BareTesting(i), h) {
      assert Held(slots, os, base, BareEmpty(i), h);
    }
  }

  lemma StartMakesLaunched(slots: seq<Slot>, os: Os, base: int, i: nat)
    requires Shared(slots, os, base, BareTesting(i))
    ensures Shared(slots, os.Spawn(base + i), base, Launched(i, os.next))
  {
    var os' := os.Spawn(base + i);
    forall j | 0 <= j < |slots| && !Busy(Launched(i, os.next), j) ensures AtRest(slots, os', base, j) {
      assert !Busy(BareTesting(i), j) && AtRest(slots, os, base, j);
      assert slots[j].cmd.Some? ==> Held(slots, os, base, BareTesting(i), slots[j].cmd.value);
    }
    forall h | h in os'.live ensures Held(slots, os', base, Launched(i, os.next), h) {
      assert h in os.live ==> Held(slots, os, base, BareTesting(i), h);
    }
  }

  lemma ActivateMakesQuiet(slots: seq<Slot>, os: Os, base: int, i: nat, h: Handle)
    requires Shared(slots, os, base, Launched(i, h))
    ensures Shared(slots[i := slots[i].Activated(Some(h))], os, base, Quiet(i))
  {
    var after := slots[i := slots[i].Activated(Some(h))];
    forall j | 0 <= j < |after| && !Busy(Quiet(i), j) ensures AtRest(after, os, base, j) {
      assert !Busy(Launched(i, h), j) && AtRest(slots, os, base, j);
    }
    forall g | g in os.live ensures Held(after, os, base, Quiet(i), g) {
      assert Held(slots, os, base, Launched(i, h), g);
    }
  }

  /** The shared state fits the position of caller `c`, and a handle about to be
      stopped is the one its slot holds. */
  ghost predicate Fits(s: State, base: int, c: nat)
    requires c < |s.pcs|
  {
    && Shared(s.slots, s.os, base, PhaseOf(s.pcs[c]))
    && (s.pcs[c].Stopping? ==> s.pcs[c].cmd == SlotAt(s, s.pcs[c].i).cmd)
  }

  lemma ReadingStep(s: State, base: int, c: nat, retest: Option<TestResult>, startOk: bool)
    requires c < |s.pcs| && Fits(s, base, c)
    requires s.pcs[c].Reading? || s.pcs[c].Excluding? || s.pcs[c].FetchingCmd?
    ensures Fits(Stepped(s, base, c, retest, startOk), base, c)
  {
  }

  lemma StoppingStep(s: State, base: int, c: nat, retest: Option<TestResult>, startOk: bool)
    requires c < |s.pcs| && Fits(s, base, c) && s.pcs[c].Stopping?
    ensures Fits(Stepped(s, base, c, retest, startOk), base, c)
  {
    StopMakesGone(s.slots, s.os, base, PhaseOf(s.pcs[c]), s.pcs[c].i);
  }

  lemma ClearingStep(s: State, base: int, c: nat, retest: Option<TestResult>, startOk: bool)
    requires c < |s.pcs| && Fits(s, base, c) && s.pcs[c].Clearing?
    ensures Fits(Stepped(s, base, c, retest, startOk), base, c)
  {
    var i := s.pcs[c].i;
    ClearMakesBare(s.slots, s.os, base, i);
    Relabel(s.slots[i := EMPTY_SLOT], s.os, base, i);
  }

  lemma ChoosingStep(s: State, base: int, c: nat, retest: Option<TestResult>, startOk: bool)
    requires c < |s.pcs| && Fits(s, base, c) && (s.pcs[c].Choosing? || s.pcs[c].Retesting?)
    ensures Fits(Stepped(s, base, c, retest, startOk), base, c)
  {
    Relabel(s.slots, s.os, base, s.pcs[c].i);
  }

  lemma PreparingStep(s: State, base: int, c: nat, retest: Option<TestResult>, startOk: bool)
    requires c < |s.pcs| && Fits(s, base, c) && s.pcs[c].Preparing?
    ensures Fits(Stepped(s, base, c, retest, startOk), base, c)
  {
    PrepareMakesTesting(s.slots, s.os, base, s.pcs[c].i, s.pcs[c].config);
  }

  lemma StartingStep(s: State, base: int, c: nat, retest: Option<TestResult>, startOk: bool)
    requires c < |s.pcs| && Fits(s, base, c) && s.pcs[c].Starting?
    ensures Fits(Stepped(s, base, c, retest, startOk), base, c)
  {
    if startOk { StartMakesLaunched(s.slots, s.os, base, s.pcs[c].i); }
  }

  lemma ActivatingStep(s: State, base: int, c: nat, retest: Option<TestResult>, startOk: bool)
    requires c < |s.pcs| && Fits(s, base, c) && s.pcs[c].Activating?
    ensures Fits(Stepped(s, base, c, retest, startOk), base, c)
  {
    ActivateMakesQuiet(s.slots, s.os, base, s.pcs[c].i, s.pcs[c].handle);
  }

  lemma RecordingStep(s: State, base: int, c: nat, retest: Option<TestResult>, startOk: bool)
    requires c < |s.pcs| && Fits(s, base, c) && (s.pcs[c].RecordingSpeed? || s.pcs[c].RecordingStability?)
    ensures Fits(Stepped(s, base, c, retest, startOk), base, c)
  {
    var i, r := s.pcs[c].i, s.pcs[c].result;
    var x := if s.pcs[c].RecordingSpeed? then s.slots[i].(speed := r.speed) else s.slots[i].(stability := r.stability);
    AlikeKeepsShared(s.slots, s.os, base, Quiet(i), i, x);
    Relabel(s.slots[i := x], s.os, base, i);
  }

  /** The owner's step moves the shared state to the phase of its new position, and
      never to an error exit. */
  lemma OwnerStep(s: State, base: int, c: nat, retest: Option<TestResult>, startOk: bool)
    requires c < |s.pcs| && Fits(s, base, c) && s.pcs[c].Inside()
    ensures Fits(Stepped(s, base, c, retest, startOk), base, c)
  {
    var pc := s.pcs[c];
    if pc.Reading? || pc.Excluding? || pc.FetchingCmd? {
      ReadingStep(s, base, c, retest, startOk);
    } else if pc.Stopping? {
      StoppingStep(s, base, c, retest, startOk);
    } else if pc.Clearing? {
      ClearingStep(s, base, c, retest, startOk);
    } else if pc.Choosing? || pc.Retesting? {
      ChoosingStep(s, base, c, retest, startOk);
    } else if pc.Preparing? {
      PreparingStep(s, base, c, retest, startOk);
    } else if pc.Starting? {
      StartingStep(s, base, c, retest, startOk);
    } else if pc.Activating? {
      ActivatingStep(s, base, c, retest, startOk);
    } else if pc.RecordingSpeed? || pc.RecordingStability? {
      RecordingStep(s, base, c, retest, startOk);
    }
  }

  /** A step moves only the caller's own position, and the lock only with it. */
  lemma OnlyOwnPosition(s: State, base: int, c: nat, retest: Option<TestResult>, startOk: bool)
    requires c < |s.pcs| && CallerOk(s, c)
    ensures var s' := Stepped(s, base, c, retest, startOk);
      && |s'.pcs| == |s.pcs| && |s'.slots| == |s.slots|
      && (forall d :: 0 <= d < |s.pcs| && d != c ==> s'.pcs[d] == s.pcs[d])
      && (s'.lock == s.lock || (s.lock.None? && s'.lock == Some(c)) || (s.lock == Some(c) && s'.lock.None?))
      && (s'.pcs[c].Inside() <==> s'.lock == Some(c))
      && (s'.pcs[c].Waiting? ==> s'.pcs[c] == s.pcs[c])
      && (s'.pcs[c].Done? && !s.pcs[c].Done? ==> s.pcs[c] == Returning(s'.pcs[c].reply))
  {
  }

  lemma AdvanceKeepsInv(s: State, base: int, c: nat, retest: Option<TestResult>, startOk: bool)
    requires Inv(s, base) && c < |s.pcs|
    ensures Inv(Stepped(s, base, c, retest, startOk), base)
  {
    var s' := Stepped(s, base, c, retest, startOk);
    assert CallerOk(s, c);
    OnlyOwnPosition(s, base, c, retest, startOk);
    if s.lock == Some(c) {
      OwnerStep(s, base, c, retest, startOk);
    } else if s.pcs[c].Waiting? && s.lock.None? {
      Relabel(s.slots, s.os, base, s.pcs[c].i);
    } else {
      assert s' == s;
    }
    forall d | 0 <= d < |s'.pcs| ensures CallerOk(s', d) {
      assert CallerOk(s, d);
    }
  }

  lemma StepKeepsInv(s: State, base: int, a: Action)
    requires Inv(s, base)
    ensures Inv(Next(s, base, a), base)
  {
    var s' := Next(s, base, a);
    match a
    case Advance(c, retest, startOk) => if c < |s.pcs| { AdvanceKeepsInv(s, base, c, retest, startOk); }
    case Call(c, i) => CallKeepsInv(s, base, c, i);
    case _ =>
      if a.i < |s.slots| {
        TouchIsAlike(s.slots[a.i], a);
        AlikeKeepsShared(s.slots, s.os, base, PhaseOf(Owner(s)), a.i, Touch(s.slots[a.i], a));
        assert Owner(s') == Owner(s);
        forall d | 0 <= d < |s'.pcs| ensures CallerOk(s', d) {
          assert CallerOk(s, d);
        }
      }
  }

  lemma CallKeepsInv(s: State, base: int, c: nat, i: nat)
    requires Inv(s, base)
    ensures Inv(Next(s, base, Call(c, i)), base)
  {
    var s' := Next(s, base, Call(c, i));
    assert c < |s.pcs| ==> CallerOk(s, c);
    forall d | 0 <= d < |s'.pcs| ensures CallerOk(s', d) {
      assert CallerOk(s, d);
    }
    assert s.lock.Some? ==> CallerOk(s, s.lock.value);
    assert Owner(s') == Owner(s);
  }

  /** A pool between atomic steps, with `callers` idle callers. */
  function Start(sys: Sys, candidates: seq<TestResult>, excluded: set<string>, callers: nat): State {
    State(sys.slots, sys.os, candidates, excluded, None, seq(callers, _ => Idle))
  }

  lemma StartInv(sys: Sys, candidates: seq<TestResult>, excluded: set<string>, callers: nat, base: int)
    requires Runs.Conserved(sys, base)
    ensures Inv(Start(sys, candidates, excluded, callers), base)
  {
    var s := Start(sys, candidates, excluded, callers);
    forall i | 0 <= i < |s.slots| ensures AtRest(s.slots, s.os, base, i) {
      assert Runs.SlotOk(sys, base, i);
    }
    forall h | h in s.os.live ensures Held(s.slots, s.os, base, Free, h) {
      assert Runs.ProcessOk(sys, base, h);
    }
  }

  lemma {:induction false} RunInv(s: State, base: int, actions: seq<Action>)
    requires Inv(s, base)
    ensures Inv(Run(s, base, actions), base)
    decreases |actions|
  {
    if actions != [] {
      RunInv(s, base, actions[..|actions| - 1]);
      StepKeepsInv(Run(s, base, actions[..|actions| - 1]), base, actions[|actions| - 1]);
    }
  }

  /** At most one live process per port. */
  ghost predicate OnePerPort(os: Os) {
    forall g, h :: g in os.live && h in os.live && os.live[g] == os.live[h] ==> g == h
  }

  /** The slot of its port holds the process, or the caller inside the lock is just
      about to put it there. */
  ghost predicate Accounted(s: State, base: int, h: Handle)
    requires h in s.os.live
  {
    var i := s.os.live[h] - base;
    && 0 <= i < |s.slots|
    && (s.slots[i].cmd == Some(h) || (Owner(s).Activating? && Owner(s).handle == h && Owner(s).i == i))
  }

  /** Not on an error exit, and not returned through one. */
  predicate OnCourse(pc: Pc) {
    && !pc.Undoing? && pc != Returning(Some(PrepareFailed)) && pc != Returning(Some(ActivateFailed))
    && pc != Done(Some(PrepareFailed)) && pc != Done(Some(ActivateFailed))
  }

  lemma LiveIsAccounted(s: State, base: int, h: Handle)
    requires Inv(s, base) && h in s.os.live
    ensures Accounted(s, base, h)
  {
    assert Held(s.slots, s.os, base, PhaseOf(Owner(s)), h);
  }

  lemma PortsAreExclusive(s: State, base: int)
    requires Inv(s, base)
    ensures OnePerPort(s.os)
  {
    var ph := PhaseOf(Owner(s));
    forall g, h | g in s.os.live && h in s.os.live && s.os.live[g] == s.os.live[h] ensures g == h {
      assert Held(s.slots, s.os, base, ph, g) && Held(s.slots, s.os, base, ph, h);
    }
  }

  lemma CallersStayOnCourse(s: State, base: int)
    requires Inv(s, base)
    ensures forall c :: 0 <= c < |s.pcs| ==> OnCourse(s.pcs[c])
    ensures forall c, d :: 0 <= c < |s.pcs| && 0 <= d < |s.pcs| && s.pcs[c].Inside() && s.pcs[d].Inside() ==> c == d
  {
    forall c | 0 <= c < |s.pcs| ensures CallerOk(s, c) && OnCourse(s.pcs[c]) {
      assert CallerOk(s, c);
      assert s.pcs[c].Inside() ==> Owner(s) == s.pcs[c];
    }
  }

  /** Under every interleaving: at most one live process per port, each held by its
      slot or by the one caller inside the lock; at most one caller inside; and the
      "prepare" and "activate" error exits are never taken. */
  lemma DropsAreSafe(sys: Sys, candidates: seq<TestResult>, excluded: set<string>, callers: nat, base: int,
                     actions: seq<Action>)
    requires Runs.Conserved(sys, base)
    ensures var s := Run(Start(sys, candidates, excluded, callers), base, actions);
      && OnePerPort(s.os)
      && (forall h :: h in s.os.live ==> Accounted(s, base, h))
      && (forall c :: 0 <= c < |s.pcs| ==> OnCourse(s.pcs[c]))
      && (forall c, d :: 0 <= c < |s.pcs| && 0 <= d < |s.pcs| && s.pcs[c].Inside() && s.pcs[d].Inside() ==> c == d)
  {
    var s := Run(Start(sys, candidates, excluded, callers), base, actions);
    StartInv(sys, candidates, excluded, callers, base);
    RunInv(Start(sys, candidates, excluded, callers), base, actions);
    PortsAreExclusive(s, base);
    CallersStayOnCourse(s, base);
    forall h | h in s.os.live ensures Accounted(s, base, h) {
      LiveIsAccounted(s, base, h);
    }
  }

  /** Once no call is inside, the pool is conserved again. */
  lemma QuietMeansConserved(s: State, base: int)
    requires Inv(s, base) && s.lock.None?
    ensures Runs.Conserved(Sys(s.slots, s.os), base)
  {
    var sys := Sys(s.slots, s.os);
    forall i | 0 <= i < |sys.slots| ensures Runs.SlotOk(sys, base, i) {
      assert AtRest(s.slots, s.os, base, i);
    }
    forall h | h in sys.os.live ensures Runs.ProcessOk(sys, base, h) {
      assert Held(s.slots, s.os, base, Free, h);
    }
  }

  /** After any interleaving that ends with no call inside, the pool is conserved. */
  lemma QuietRunsConserve(sys: Sys, candidates: seq<TestResult>, excluded: set<string>, callers: nat, base: int,
                          actions: seq<Action>)
    requires Runs.Conserved(sys, base)
    ensures var s := Run(Start(sys, candidates, excluded, callers), base, actions);
      s.lock.None? ==> Runs.Conserved(Sys(s.slots, s.os), base)
  {
    StartInv(sys, candidates, excluded, callers, base);
    RunInv(Start(sys, candidates, excluded, callers), base, actions);
    var s := Run(Start(sys, candidates, excluded, callers), base, actions);
    if s.lock.None? { QuietMeansConserved(s, base); }
  }

  // ----- an undisturbed call is the atomic drop -----

  /** `n` steps of caller `c` with nobody in between. */
  function Alone(s: State, base: int, c: nat, retest: Option<TestResult>, startOk: bool, n: nat): (r: State)
    requires c < |s.pcs|
    ensures |r.pcs| == |s.pcs|
    decreases n
  {
    if n == 0 then s else Alone(StepOf(s, base, c, retest, startOk), base, c, retest, startOk, n - 1)
  }

  function StepOf(s: State, base: int, c: nat, retest: Option<TestResult>, startOk: bool): (r: State)
    requires c < |s.pcs|
    ensures |r.pcs| == |s.pcs|
  {
    Stepped(s, base, c, retest, startOk)
  }

  lemma {:induction false} AloneAdds(s: State, base: int, c: nat, retest: Option<TestResult>, startOk: bool, m: nat,
                                     n: nat)
    requires c < |s.pcs|
    ensures Alone(s, base, c, retest, startOk, m + n) ==
      Alone(Alone(s, base, c, retest, startOk, m), base, c, retest, startOk, n)
    decreases m
  {
    if m > 0 {
      AloneAdds(StepOf(s, base, c, retest, startOk), base, c, retest, startOk, m - 1, n);
    }
  }

  /** `s` with caller `c` inside the lock at `pc` and the given shared parts. */
  function During(s: State, c: nat, pc: Pc, sys: Sys, excluded: set<string>): State
    requires c < |s.pcs|
  {
    State(sys.slots, sys.os, s.candidates, excluded, Some(c), s.pcs[c := pc])
  }

  lemma AloneClears(s: State, base: int, c: nat, i: nat, excluded: set<string>, sys: Sys, why: Why,
                    retest: Option<TestResult>, startOk: bool)
    requires c < |s.pcs| && i < |sys.slots| && why != ForActivateFailure
    ensures Alone(During(s, c, FetchingCmd(i, why), sys, excluded), base, c, retest, startOk, 3)
      == During(s, c, if why.ForDrop? then Choosing(i) else Returning(Some(StartFailed)), Reset(sys, i), excluded)
  {
    var s0 := During(s, c, FetchingCmd(i, why), sys, excluded);
    var s1 := StepOf(s0, base, c, retest, startOk);
    assert s1 == During(s, c, Stopping(i, sys.slots[i].cmd, why), sys, excluded);
    var s2 := StepOf(s1, base, c, retest, startOk);
    assert s2 == During(s, c, Clearing(i, why), Sys(sys.slots, sys.os.Kill(sys.slots[i].cmd)), excluded);
    var s3 := StepOf(s2, base, c, retest, startOk);
    assert Alone(s2, base, c, retest, startOk, 1) == Alone(s3, base, c, retest, startOk, 0);
    assert Alone(s1, base, c, retest, startOk, 2) == Alone(s2, base, c, retest, startOk, 1);
    assert Alone(s0, base, c, retest, startOk, 3) == Alone(s1, base, c, retest, startOk, 2);
  }

  lemma AloneDrops(s: State, base: int, c: nat, i: nat, retest: Option<TestResult>, startOk: bool)
    requires c < |s.pcs| && i < |s.slots| && s.pcs[c] == Waiting(i) && s.lock.None?
    ensures var w := World(Sys(s.slots, s.os), s.candidates, s.excluded);
      Alone(s, base, c, retest, startOk, 6) == During(s, c, Choosing(i), Reset(w.sys, i), ExcludedBy(w, i))
  {
    var w := World(Sys(s.slots, s.os), s.candidates, s.excluded);
    var s1 := StepOf(s, base, c, retest, startOk);
    assert s1 == During(s, c, Reading(i), w.sys, s.excluded);
    var s2 := StepOf(s1, base, c, retest, startOk);
    assert s2 == During(s, c, Excluding(i, s.slots[i].config), w.sys, s.excluded);
    var s3 := StepOf(s2, base, c, retest, startOk);
    assert s3 == During(s, c, FetchingCmd(i, ForDrop), w.sys, ExcludedBy(w, i));
    assert Alone(s2, base, c, retest, startOk, 1) == Alone(s3, base, c, retest, startOk, 0);
    assert Alone(s1, base, c, retest, startOk, 2) == Alone(s2, base, c, retest, startOk, 1);
    assert Alone(s, base, c, retest, startOk, 3) == Alone(s1, base, c, retest, startOk, 2);
    AloneAdds(s, base, c, retest, startOk, 3, 3);
    AloneClears(s, base, c, i, ExcludedBy(w, i), w.sys, ForDrop, retest, startOk);
  }

  /** Claiming the slot and starting the process. */
  lemma AlonePrepares(s: State, base: int, c: nat, i: nat, cfg: ProxyConfig, result: TestResult, sys: Sys,
                      excluded: set<string>, retest: Option<TestResult>, startOk: bool)
    requires c < |s.pcs| && i < |sys.slots| && sys.slots[i].state.Empty?
    ensures var prepared := sys.(slots := sys.slots[i := sys.slots[i].Prepared(cfg)]);
      Alone(During(s, c, Preparing(i, cfg, result), sys, excluded), base, c, retest, startOk, 2)
        == if startOk then During(s, c, Activating(i, sys.os.next, result), prepared.(os := sys.os.Spawn(base + i)),
          excluded)
           else During(s, c, FetchingCmd(i, ForStartFailure), prepared, excluded)
  {
    var prepared := sys.(slots := sys.slots[i := sys.slots[i].Prepared(cfg)]);
    var s0 := During(s, c, Preparing(i, cfg, result), sys, excluded);
    var s1 := StepOf(s0, base, c, retest, startOk);
    assert s1 == During(s, c, Starting(i, result), prepared, excluded);
    var s2 := StepOf(s1, base, c, retest, startOk);
    assert Alone(s1, base, c, retest, startOk, 1) == Alone(s2, base, c, retest, startOk, 0);
    assert Alone(s0, base, c, retest, startOk, 2) == Alone(s1, base, c, retest, startOk, 1);
  }

  /** From an empty slot and a candidate that passed its re-test. */
  lemma AloneInstalls(s: State, base: int, c: nat, i: nat, cfg: ProxyConfig, result: TestResult, sys: Sys,
                      excluded: set<string>, retest: Option<TestResult>, startOk: bool)
    requires c < |s.pcs| && i < |sys.slots| && sys.slots[i] == EMPTY_SLOT
    ensures Alone(During(s, c, Preparing(i, cfg, result), sys, excluded), base, c, retest, startOk, 5)
      == During(s, c, Returning(if startOk then None else Some(StartFailed)),
        Promote(sys, i, cfg, base + i, startOk, result.speed, result.stability), excluded)
  {
    var prepared := sys.(slots := sys.slots[i := sys.slots[i].Prepared(cfg)]);
    AloneAdds(During(s, c, Preparing(i, cfg, result), sys, excluded), base, c, retest, startOk, 2, 3);
    AlonePrepares(s, base, c, i, cfg, result, sys, excluded, retest, startOk);
    if startOk {
      AloneActivates(s, base, c, i, sys.os.next, result, prepared.(os := sys.os.Spawn(base + i)), excluded, retest,
        startOk);
    } else {
      AloneClears(s, base, c, i, excluded, prepared, ForStartFailure, retest, startOk);
    }
  }

  lemma AloneActivates(s: State, base: int, c: nat, i: nat, h: Handle, result: TestResult, sys: Sys,
                       excluded: set<string>, retest: Option<TestResult>, startOk: bool)
    requires c < |s.pcs| && i < |sys.slots| && sys.slots[i].state.Testing?
    ensures Alone(During(s, c, Activating(i, h, result), sys, excluded), base, c, retest, startOk, 3)
      == During(s, c, Returning(None),
        sys.(slots := sys.slots[i :=
        sys.slots[i].Activated(Some(h)).(speed := result.speed, stability := result.stability)]), excluded)
  {
    var s0 := During(s, c, Activating(i, h, result), sys, excluded);
    var x := sys.slots[i].Activated(Some(h));
    var s1 := StepOf(s0, base, c, retest, startOk);
    assert s1 == During(s, c, RecordingSpeed(i, result), sys.(slots := sys.slots[i := x]), excluded);
    var s2 := StepOf(s1, base, c, retest, startOk);
    assert s2 == During(s, c, RecordingStability(i, result), sys.(slots := sys.slots[i := x.(speed := result.speed)]),
      excluded);
    var s3 := StepOf(s2, base, c, retest, startOk);
    assert Alone(s2, base, c, retest, startOk, 1) == Alone(s3, base, c, retest, startOk, 0);
    assert Alone(s1, base, c, retest, startOk, 2) == Alone(s2, base, c, retest, startOk, 1);
    assert Alone(s0, base, c, retest, startOk, 3) == Alone(s1, base, c, retest, startOk, 2);
  }

  /** From the choice of a candidate to the end of the lock. */
  lemma AloneChooses(s: State, base: int, c: nat, i: nat, sys: Sys, excluded: set<string>, retest: Option<TestResult>,
                     startOk: bool) returns (n: nat)
    requires c < |s.pcs| && i < |sys.slots| && sys.slots[i] == EMPTY_SLOT
    ensures var best := FirstEligible(s.candidates, excluded); var start := During(s, c, Choosing(i), sys, excluded);
      Alone(start, base, c, retest, startOk, n) ==
        if best.None? then During(s, c, Returning(Some(NoReplacementCandidate)), sys, excluded)
        else if retest.None? || retest.value.failed
          then During(s, c, Returning(Some(ReplacementTestFailed)), sys, excluded)
        else During(s, c, Returning(if startOk then None else Some(StartFailed)),
          Promote(sys, i, best.value.config, base + i, startOk, retest.value.speed, retest.value.stability), excluded)
  {
    var best := FirstEligible(s.candidates, excluded);
    var s0 := During(s, c, Choosing(i), sys, excluded);
    var s1 := StepOf(s0, base, c, retest, startOk);
    assert Alone(s0, base, c, retest, startOk, 1) == Alone(s1, base, c, retest, startOk, 0);
    n := 1;
    if best.Some? {
      assert s1 == During(s, c, Retesting(i, best.value.config), sys, excluded);
      var s2 := StepOf(s1, base, c, retest, startOk);
      assert Alone(s1, base, c, retest, startOk, 1) == Alone(s2, base, c, retest, startOk, 0);
      AloneAdds(s0, base, c, retest, startOk, 1, 1);
      n := 2;
      if retest.Some? && !retest.value.failed {
        assert s2 == During(s, c, Preparing(i, best.value.config, retest.value), sys, excluded);
        AloneAdds(s0, base, c, retest, startOk, 2, 5);
        AloneInstalls(s, base, c, i, best.value.config, retest.value, sys, excluded, retest, startOk);
        n := 7;
      }
    }
  }

  lemma AloneReturns(s: State, base: int, c: nat, reply: Option<DropError>, sys: Sys, excluded: set<string>,
                     retest: Option<TestResult>, startOk: bool)
    requires c < |s.pcs|
    ensures Alone(During(s, c, Returning(reply), sys, excluded), base, c, retest, startOk, 1)
      == State(sys.slots, sys.os, s.candidates, excluded, None, s.pcs[c := Done(reply)])
  {
    var s0 := During(s, c, Returning(reply), sys, excluded);
    var s1 := StepOf(s0, base, c, retest, startOk);
    assert Alone(s0, base, c, retest, startOk, 1) == Alone(s1, base, c, retest, startOk, 0);
  }

  /** A call that nobody interrupts does exactly what the atomic drop says, and
      returns its reply with the lock free again. */
  lemma UndisturbedCallIsAtomic(s: State, base: int, c: nat, i: nat, retest: Option<TestResult>, startOk: bool)
    returns (n: nat)
    requires c < |s.pcs| && i < |s.slots| && s.pcs[c] == Waiting(i) && s.lock.None?
    ensures var w := World(Sys(s.slots, s.os), s.candidates, s.excluded);
      var s' := Alone(s, base, c, retest, startOk, n);
      && World(Sys(s'.slots, s'.os), s'.candidates, s'.excluded) == Drop(w, i, base, retest, startOk)
      && s'.pcs == s.pcs[c := Done(DropReply(w, i, retest, startOk))] && s'.lock.None?
  {
    var w := World(Sys(s.slots, s.os), s.candidates, s.excluded);
    AloneDrops(s, base, c, i, retest, startOk);
    var m := AloneChooses(s, base, c, i, Reset(w.sys, i), ExcludedBy(w, i), retest, startOk);
    AloneAdds(s, base, c, retest, startOk, 6, m);
    AloneAdds(s, base, c, retest, startOk, 6 + m, 1);
    var dropped := Drop(w, i, base, retest, startOk);
    AloneReturns(s, base, c, DropReply(w, i, retest, startOk), dropped.sys, dropped.excluded, retest, startOk);
    n := 7 + m;
  }
}
