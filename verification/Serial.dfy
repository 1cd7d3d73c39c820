/** Interleaved drop calls are serializable: configs, processes, exclusions and replies
    are those of atomic drops taken in the order in which the lock was held. */
module Serial {
  import opened WanSpec
  import opened Base
  import opened Candidates
  import opened World
  import opened DropProtocol
  import Protocols
  import Runs

  /** What drops decide about a slot: counters, figures, probe notes and whether an
      active slot was marked draining belong to other actors. */
  function Core(x: Slot): Slot {
    x.(state := if x.state.Draining? then Active else x.state, conns := 0, fails := 0,
       speed := 0.0, stability := 0, drainAt := None, exitIp := "", lastProbe := None)
  }

  function Cores(slots: seq<Slot>): (r: seq<Slot>)
    ensures |r| == |slots|
    ensures forall i :: 0 <= i < |slots| ==> r[i] == Core(slots[i])
  {
    seq(|slots|, i requires 0 <= i < |slots| => Core(slots[i]))
  }

  lemma CoresPut(slots: seq<Slot>, i: nat, x: Slot)
    requires i < |slots|
    ensures Cores(slots[i := x]) == Cores(slots)[i := Core(x)]
  {
  }

  /** One completed call: caller, slot, and the outcomes of its re-test and its start. */
  datatype Entry = Entry(c: nat, i: nat, retest: Option<TestResult>, startOk: bool)

  /** The atomic drops of the log, first to last. */
  function Serially(w: World, base: int, log: seq<Entry>): (r: World)
    ensures |r.sys.slots| == |w.sys.slots|
  {
    if log == [] then w
    else
      var before, e := Serially(w, base, log[..|log| - 1]), log[|log| - 1];
      if e.i < |w.sys.slots| then Drop(before, e.i, base, e.retest, e.startOk) else before
  }

  /** The reply of the atomic drop at position `k`. */
  function ReplyAt(w: World, base: int, log: seq<Entry>, k: nat): Option<DropError>
    requires k < |log| && log[k].i < |w.sys.slots|
  {
    DropReply(Serially(w, base, log[..k]), log[k].i, log[k].retest, log[k].startOk)
  }

  lemma SeriallySnoc(w: World, base: int, log: seq<Entry>, e: Entry)
    requires e.i < |w.sys.slots|
    ensures Serially(w, base, log + [e]) == Drop(Serially(w, base, log), e.i, base, e.retest, e.startOk)
  {
    assert (log + [e])[..|log|] == log;
  }

  // ----- an unfinished drop against the world before it -----

  ghost predicate Looks(s: State, slots: seq<Slot>, os: Os, excluded: set<string>, candidates: seq<TestResult>) {
    Cores(s.slots) == slots && s.os == os && s.excluded == excluded && s.candidates == candidates
  }

  /** The slot of the drop holds `x`, its old process is stopped and `os` is what
      became of the others, and its raw text is excluded. */
  ghost predicate Working(s: State, w: World, i: nat, x: Slot, os: Os)
    requires i < |w.sys.slots|
  {
    Looks(s, Cores(w.sys.slots)[i := x], os, ExcludedBy(w, i), w.candidates)
  }

  function Stopped(w: World, i: nat): Os
    requires i < |w.sys.slots|
  {
    w.sys.os.Kill(w.sys.slots[i].cmd)
  }

  function Choice(w: World, i: nat): Option<TestResult>
    requires i < |w.sys.slots|
  {
    FirstEligible(w.candidates, ExcludedBy(w, i))
  }

  function Claim(w: World, i: nat): Slot
    requires i < |w.sys.slots| && Choice(w, i).Some?
  {
    EMPTY_SLOT.Prepared(Choice(w, i).value.config)
  }

  /** All that is left is to return `reply`. */
  ghost predicate Finished(s: State, w: World, base: int, e: Entry, reply: Option<DropError>) {
    && e.i < |w.sys.slots|
    && reply == DropReply(w, e.i, e.retest, e.startOk)
    && var d := Drop(w, e.i, base, e.retest, e.startOk);
       Looks(s, Cores(d.sys.slots), d.sys.os, d.excluded, d.candidates)
  }

  /** The slot a call is about, where its position still says so. */
  function Subject(pc: Pc): Option<nat> {
    if pc.Idle? || pc.Returning? || pc.Done? then None else Some(pc.i)
  }

  /** `s` is the world `w` with the drop of a call at `pc` carried out up to there. */
  ghost predicate Midway(s: State, w: World, base: int, pc: Pc)
    requires Subject(pc).Some? && Subject(pc).value < |w.sys.slots|
  {
    var i := Subject(pc).value;
    match pc
    case Waiting(_) => Looks(s, Cores(w.sys.slots), w.sys.os, w.excluded, w.candidates)
    case Reading(_) => Looks(s, Cores(w.sys.slots), w.sys.os, w.excluded, w.candidates)
    case Excluding(_, current) =>
      current == w.sys.slots[i].config && Looks(s, Cores(w.sys.slots), w.sys.os, w.excluded, w.candidates)
    case FetchingCmd(_, why) => Undone(s, w, i, why, false)
    case Stopping(_, cmd, why) =>
      cmd == (if why.ForDrop? then w.sys.slots[i].cmd else None) && Undone(s, w, i, why, false)
    case Clearing(_, why) => Undone(s, w, i, why, true)
    case Choosing(_) => Working(s, w, i, EMPTY_SLOT, Stopped(w, i))
    case Retesting(_, config) => Chosen(w, i, config) && Working(s, w, i, EMPTY_SLOT, Stopped(w, i))
    case Preparing(_, config, result) =>
      Chosen(w, i, config) && !result.failed && Working(s, w, i, EMPTY_SLOT, Stopped(w, i))
    case Starting(_, result) =>
      Choice(w, i).Some? && !result.failed && Working(s, w, i, Claim(w, i), Stopped(w, i))
    case Activating(_, h, result) =>
      Choice(w, i).Some? && !result.failed && h == Stopped(w, i).next
      && Working(s, w, i, Claim(w, i), Stopped(w, i).Spawn(base + i))
    case RecordingSpeed(_, result) => Launched(s, w, base, i, result)
    case RecordingStability(_, result) => Launched(s, w, base, i, result)
    case _ => false
  }

  ghost predicate Chosen(w: World, i: nat, config: ProxyConfig)
    requires i < |w.sys.slots|
  {
    Choice(w, i).Some? && Choice(w, i).value.config == config
  }

  /** On the way to clearing the slot, before or after its process was stopped. */
  ghost predicate Undone(s: State, w: World, i: nat, why: Why, stopped: bool)
    requires i < |w.sys.slots|
  {
    match why
    case ForDrop =>
      Looks(s, Cores(w.sys.slots), if stopped then Stopped(w, i) else w.sys.os, ExcludedBy(w, i), w.candidates)
    case ForStartFailure => Choice(w, i).Some? && Working(s, w, i, Claim(w, i), Stopped(w, i))
    case ForActivateFailure => false
  }

  ghost predicate Launched(s: State, w: World, base: int, i: nat, result: TestResult)
    requires i < |w.sys.slots|
  {
    && Choice(w, i).Some? && !result.failed
    && Working(s, w, i, Claim(w, i).Activated(Some(Stopped(w, i).next)), Stopped(w, i).Spawn(base + i))
  }

  /** What the atomic drop leaves, in the same terms. */
  lemma DropLooks(w: World, base: int, e: Entry)
    requires e.i < |w.sys.slots|
    ensures var d, c := Drop(w, e.i, base, e.retest, e.startOk), DropPromotes(w, e.i, e.retest, e.startOk);
      && d.candidates == w.candidates && d.excluded == ExcludedBy(w, e.i)
      && (c.None? ==> Cores(d.sys.slots) == Cores(w.sys.slots)[e.i := EMPTY_SLOT] && d.sys.os == Stopped(w, e.i))
      && (c.Some? ==>
            && Cores(d.sys.slots) == Cores(w.sys.slots)[e.i := Claim(w, e.i).Activated(Some(Stopped(w, e.i).next))]
            && d.sys.os == Stopped(w, e.i).Spawn(base + e.i))
  {
  }

  ghost predicate Advanced(s: State, w: World, base: int, c: nat, i: nat)
    requires c < |s.pcs| && i < |w.sys.slots|
  {
    var pc := s.pcs[c];
    if pc.Returning? then exists e: Entry :: e.c == c && e.i == i && Finished(s, w, base, e, pc.reply)
    else Subject(pc) == Some(i) && Midway(s, w, base, pc)
  }

  lemma ReadingAdvances(s: State, w: World, base: int, c: nat, retest: Option<TestResult>, startOk: bool)
    requires c < |s.pcs| && (s.pcs[c].Reading? || s.pcs[c].Excluding?)
    requires s.pcs[c].i < |w.sys.slots| && Midway(s, w, base, s.pcs[c])
    ensures Advanced(Stepped(s, base, c, retest, startOk), w, base, c, s.pcs[c].i)
  {
    assert Cores(s.slots)[s.pcs[c].i] == Core(w.sys.slots[s.pcs[c].i]);
  }

  lemma FetchingAdvances(s: State, w: World, base: int, c: nat, retest: Option<TestResult>, startOk: bool)
    requires c < |s.pcs| && (s.pcs[c].FetchingCmd? || s.pcs[c].Stopping?)
    requires s.pcs[c].i < |w.sys.slots| && Midway(s, w, base, s.pcs[c])
    ensures Advanced(Stepped(s, base, c, retest, startOk), w, base, c, s.pcs[c].i)
  {
    var i := s.pcs[c].i;
    if s.pcs[c].why.ForDrop? {
      assert Cores(s.slots)[i] == Core(w.sys.slots[i]);
    } else {
      assert Cores(s.slots)[i] == Claim(w, i);
    }
  }

  lemma ClearingAdvances(s: State, w: World, base: int, c: nat, retest: Option<TestResult>, startOk: bool)
    requires c < |s.pcs| && s.pcs[c].Clearing?
    requires s.pcs[c].i < |w.sys.slots| && Midway(s, w, base, s.pcs[c])
    ensures Advanced(Stepped(s, base, c, retest, startOk), w, base, c, s.pcs[c].i)
  {
    var i := s.pcs[c].i;
    var s' := Stepped(s, base, c, retest, startOk);
    CoresPut(s.slots, i, EMPTY_SLOT);
    assert Cores(s'.slots) == Cores(w.sys.slots)[i := EMPTY_SLOT];
    if s.pcs[c].why.ForStartFailure? {
      var e := Entry(c, i, Choice(w, i), false);
      DropLooks(w, base, e);
      assert Finished(s', w, base, e, Some(StartFailed));
    }
  }

  lemma ChoosingAdvances(s: State, w: World, base: int, c: nat, retest: Option<TestResult>, startOk: bool)
    requires c < |s.pcs| && (s.pcs[c].Choosing? || s.pcs[c].Retesting?)
    requires s.pcs[c].i < |w.sys.slots| && Midway(s, w, base, s.pcs[c])
    ensures Advanced(Stepped(s, base, c, retest, startOk), w, base, c, s.pcs[c].i)
  {
    var s' := Stepped(s, base, c, retest, startOk);
    var e := Entry(c, s.pcs[c].i, if s.pcs[c].Choosing? then None else retest, false);
    DropLooks(w, base, e);
    if s'.pcs[c].Returning? {
      assert Finished(s', w, base, e, s'.pcs[c].reply);
    }
  }

  lemma PreparingAdvances(s: State, w: World, base: int, c: nat, retest: Option<TestResult>, startOk: bool)
    requires c < |s.pcs| && (s.pcs[c].Preparing? || s.pcs[c].Starting?)
    requires s.pcs[c].i < |w.sys.slots| && Midway(s, w, base, s.pcs[c])
    ensures Advanced(Stepped(s, base, c, retest, startOk), w, base, c, s.pcs[c].i)
  {
    var i := s.pcs[c].i;
    if s.pcs[c].Preparing? {
      assert Core(s.slots[i]) == EMPTY_SLOT;
      CoresPut(s.slots, i, s.slots[i].Prepared(s.pcs[c].config));
    }
  }

  lemma ActivatingAdvances(s: State, w: World, base: int, c: nat, retest: Option<TestResult>, startOk: bool)
    requires c < |s.pcs| && s.pcs[c].Activating?
    requires s.pcs[c].i < |w.sys.slots| && Midway(s, w, base, s.pcs[c])
    ensures Advanced(Stepped(s, base, c, retest, startOk), w, base, c, s.pcs[c].i)
  {
    var i := s.pcs[c].i;
    assert Core(s.slots[i]) == Claim(w, i);
    CoresPut(s.slots, i, s.slots[i].Activated(Some(s.pcs[c].handle)));
  }

  lemma RecordingAdvances(s: State, w: World, base: int, c: nat, retest: Option<TestResult>, startOk: bool)
    requires c < |s.pcs| && (s.pcs[c].RecordingSpeed? || s.pcs[c].RecordingStability?)
    requires s.pcs[c].i < |w.sys.slots| && Midway(s, w, base, s.pcs[c])
    ensures Advanced(Stepped(s, base, c, retest, startOk), w, base, c, s.pcs[c].i)
  {
    var i, result := s.pcs[c].i, s.pcs[c].result;
    var s' := Stepped(s, base, c, retest, startOk);
    CoresPut(s.slots, i, s'.slots[i]);
    assert Cores(s'.slots) == Cores(s.slots);
    var e := Entry(c, i, Some(result), true);
    DropLooks(w, base, e);
    if s'.pcs[c].Returning? {
      assert Finished(s', w, base, e, None);
    }
  }

  lemma OwnerAdvances(s: State, w: World, base: int, c: nat, retest: Option<TestResult>, startOk: bool)
    requires c < |s.pcs| && s.pcs[c].Inside() && !s.pcs[c].Returning?
    requires s.pcs[c].i < |w.sys.slots| && Midway(s, w, base, s.pcs[c])
    ensures Advanced(Stepped(s, base, c, retest, startOk), w, base, c, s.pcs[c].i)
  {
    var pc := s.pcs[c];
    if pc.Reading? || pc.Excluding? { ReadingAdvances(s, w, base, c, retest, startOk); }
    else if pc.FetchingCmd? || pc.Stopping? { FetchingAdvances(s, w, base, c, retest, startOk); }
    else if pc.Clearing? { ClearingAdvances(s, w, base, c, retest, startOk); }
    else if pc.Choosing? || pc.Retesting? { ChoosingAdvances(s, w, base, c, retest, startOk); }
    else if pc.Preparing? || pc.Starting? { PreparingAdvances(s, w, base, c, retest, startOk); }
    else if pc.Activating? { ActivatingAdvances(s, w, base, c, retest, startOk); }
    else { RecordingAdvances(s, w, base, c, retest, startOk); }
  }

  // ----- whole interleavings -----

  /** The last logged call of `c` was answered with `reply`. */
  ghost predicate Replied(w: World, base: int, log: seq<Entry>, c: nat, reply: Option<DropError>) {
    exists k ::
      && 0 <= k < |log| && log[k].c == c && log[k].i < |w.sys.slots|
      && (forall m :: k < m < |log| ==> log[m].c != c)
      && reply == ReplyAt(w, base, log, k)
  }

  /** Every logged drop was called for. */
  ghost predicate Called(n: nat, actions: seq<Action>, log: seq<Entry>) {
    forall k :: 0 <= k < |log| ==> log[k].i < n && Call(log[k].c, log[k].i) in actions
  }

  /** Callers on their way are about slots they were called for. */
  ghost predicate OnCall(s: State, n: nat, actions: seq<Action>) {
    forall c: nat :: c < |s.pcs| && Subject(s.pcs[c]).Some? ==>
      Subject(s.pcs[c]).value < n && Call(c, Subject(s.pcs[c]).value) in actions
  }

  /** The atomic drops of the log, and the drop of the owner of the lock carried out as
      far as it has come, are what `s` shows. */
  ghost predicate Shows(s: State, w: World, base: int, actions: seq<Action>) {
    if s.lock.None? then Looks(s, Cores(w.sys.slots), w.sys.os, w.excluded, w.candidates)
    else
      s.lock.value < |s.pcs|
      && exists i :: 0 <= i < |w.sys.slots| && Call(s.lock.value, i) in actions && Advanced(s, w, base, s.lock.value, i)
  }

  ghost predicate Answered(s: State, w: World, base: int, log: seq<Entry>) {
    forall c: nat :: c < |s.pcs| && s.pcs[c].Done? ==> Replied(w, base, log, c, s.pcs[c].reply)
  }

  ghost predicate Serialized(s: State, w: World, base: int, actions: seq<Action>, log: seq<Entry>) {
    && Called(|w.sys.slots|, actions, log)
    && OnCall(s, |w.sys.slots|, actions)
    && Shows(s, Serially(w, base, log), base, actions)
    && Answered(s, w, base, log)
  }

  lemma TouchKeepsCore(s: Slot, a: Action)
    ensures Core(Touch(s, a)) == Core(s)
  {
  }

  /** Only the cores, the processes, the exclusions and the owner's position matter. */
  lemma SameShows(s: State, s': State, w: World, base: int, actions: seq<Action>, more: seq<Action>)
    requires Shows(s, w, base, actions)
    requires Cores(s'.slots) == Cores(s.slots) && s'.os == s.os && s'.excluded == s.excluded &&
      s'.candidates == s.candidates
    requires s'.lock == s.lock && |s'.pcs| == |s.pcs|
    requires s.lock.Some? ==> s'.pcs[s.lock.value] == s.pcs[s.lock.value]
    ensures Shows(s', w, base, actions + more)
  {
    if s.lock.Some? {
      var c := s.lock.value;
      var i :| 0 <= i < |w.sys.slots| && Call(c, i) in actions && Advanced(s, w, base, c, i);
      if s.pcs[c].Returning? {
        var e: Entry :| e.c == c && e.i == i && Finished(s, w, base, e, s.pcs[c].reply);
        assert Finished(s', w, base, e, s'.pcs[c].reply);
      }
      assert Advanced(s', w, base, c, i);
      assert Call(c, i) in actions + more;
    }
  }

  lemma TouchSerialized(s: State, w: World, base: int, actions: seq<Action>, log: seq<Entry>, a: Action)
    requires Serialized(s, w, base, actions, log) && !a.Call? && !a.Advance?
    ensures Serialized(Next(s, base, a), w, base, actions + [a], log)
  {
    var s' := Next(s, base, a);
    if a.i < |s.slots| {
      TouchKeepsCore(s.slots[a.i], a);
      CoresPut(s.slots, a.i, Touch(s.slots[a.i], a));
      assert Cores(s'.slots) == Cores(s.slots);
    }
    SameShows(s, s', Serially(w, base, log), base, actions, [a]);
  }

  lemma CallSerialized(s: State, w: World, base: int, actions: seq<Action>, log: seq<Entry>, c: nat, i: nat)
    requires Serialized(s, w, base, actions, log) && Inv(s, base) && |s.slots| == |w.sys.slots|
    ensures Serialized(Next(s, base, Call(c, i)), w, base, actions + [Call(c, i)], log)
  {
    var s' := Next(s, base, Call(c, i));
    if s.lock.Some? {
      assert CallerOk(s, s.lock.value);
      assert s'.pcs[s.lock.value] == s.pcs[s.lock.value];
    }
    SameShows(s, s', Serially(w, base, log), base, actions, [Call(c, i)]);
    forall d: nat | d < |s'.pcs| && s'.pcs[d].Done? ensures Replied(w, base, log, d, s'.pcs[d].reply) {
      assert s'.pcs[d] == s.pcs[d];
    }
  }

  /** Steps that leave the lock, the log and all other callers alone. */
  lemma OwnSerialized(s: State, s': State, w: World, base: int, actions: seq<Action>, log: seq<Entry>, c: nat,
                      a: Action)
    requires Serialized(s, w, base, actions, log) && c < |s.pcs| == |s'.pcs|
    requires forall d: nat :: d < |s.pcs| && d != c ==> s'.pcs[d] == s.pcs[d]
    requires Subject(s'.pcs[c]).Some? ==> Subject(s'.pcs[c]) == Subject(s.pcs[c])
    requires s'.pcs[c].Done? ==> s'.pcs[c] == s.pcs[c]
    requires Shows(s', Serially(w, base, log), base, actions + [a])
    ensures Serialized(s', w, base, actions + [a], log)
  {
    forall d: nat | d < |s'.pcs| && s'.pcs[d].Done? ensures Replied(w, base, log, d, s'.pcs[d].reply) {
      assert s'.pcs[d] == s.pcs[d];
    }
  }

  lemma TakeSerialized(s: State, w: World, base: int, actions: seq<Action>, log: seq<Entry>, a: Action)
    requires Serialized(s, w, base, actions, log) && a.Advance? && a.caller < |s.pcs|
    requires s.pcs[a.caller].Waiting? && s.lock.None?
    ensures Serialized(Next(s, base, a), w, base, actions + [a], log)
  {
    var s', c, i := Next(s, base, a), a.caller, s.pcs[a.caller].i;
    assert Call(c, i) in actions + [a];
    assert Advanced(s', Serially(w, base, log), base, c, i);
    OwnSerialized(s, s', w, base, actions, log, c, a);
  }

  lemma WorkSerialized(s: State, w: World, base: int, actions: seq<Action>, log: seq<Entry>, a: Action)
    requires Serialized(s, w, base, actions, log) && a.Advance? && a.caller < |s.pcs|
    requires s.lock == Some(a.caller) && s.pcs[a.caller].Inside() && !s.pcs[a.caller].Returning?
    ensures Serialized(Next(s, base, a), w, base, actions + [a], log)
  {
    var s', c, now := Next(s, base, a), a.caller, Serially(w, base, log);
    var i :| 0 <= i < |now.sys.slots| && Call(c, i) in actions && Advanced(s, now, base, c, i);
    OwnerAdvances(s, now, base, c, a.retest, a.startOk);
    OwnerKeepsLock(s, base, c, a.retest, a.startOk);
    assert Call(c, i) in actions + [a];
    OwnSerialized(s, s', w, base, actions, log, c, a);
  }

  lemma OwnerKeepsLock(s: State, base: int, c: nat, retest: Option<TestResult>, startOk: bool)
    requires c < |s.pcs| && s.pcs[c].Inside() && !s.pcs[c].Returning?
    ensures var s' := Stepped(s, base, c, retest, startOk);
      && s'.lock == s.lock && |s'.pcs| == |s.pcs| && s'.pcs[c].Inside()
      && forall d: nat :: d < |s.pcs| && d != c ==> s'.pcs[d] == s.pcs[d]
  {
  }

  /** Returning the lock adds the call to the log. */
  lemma ReturnSerialized(s: State, w: World, base: int, actions: seq<Action>, log: seq<Entry>, a: Action)
    returns (e: Entry)
    requires Serialized(s, w, base, actions, log) && a.Advance? && a.caller < |s.pcs|
    requires s.lock == Some(a.caller) && s.pcs[a.caller].Returning?
    ensures Serialized(Next(s, base, a), w, base, actions + [a], log + [e])
  {
    var c, now := a.caller, Serially(w, base, log);
    var i :| 0 <= i < |now.sys.slots| && Call(c, i) in actions && Advanced(s, now, base, c, i);
    e :| e.c == c && e.i == i && Finished(s, now, base, e, s.pcs[c].reply);
    var s' := s.(lock := None, pcs := s.pcs[c := Done(s.pcs[c].reply)]);
    LogGrows(w, base, actions, log, e, a);
    ReturnShows(s, s', w, base, actions, log, e, a);
    ReturnAnswers(s, s', w, base, log, c, e);
    assert OnCall(s', |w.sys.slots|, actions + [a]);
    ReturnEffect(s, base, a);
  }

  lemma ReturnEffect(s: State, base: int, a: Action)
    requires a.Advance? && a.caller < |s.pcs| && s.pcs[a.caller].Returning?
    ensures Next(s, base, a) == s.(lock := None, pcs := s.pcs[a.caller := Done(s.pcs[a.caller].reply)])
  {
  }

  lemma ReturnShows(s: State, s': State, w: World, base: int, actions: seq<Action>, log: seq<Entry>, e: Entry,
                    a: Action)
    requires s'.lock.None? && s' == s.(lock := None, pcs := s'.pcs)
    requires exists reply :: Finished(s, Serially(w, base, log), base, e, reply)
    ensures Shows(s', Serially(w, base, log + [e]), base, actions + [a])
  {
    SeriallySnoc(w, base, log, e);
  }

  lemma ReturnAnswers(s: State, s': State, w: World, base: int, log: seq<Entry>, c: nat, e: Entry)
    requires Answered(s, w, base, log) && c < |s.pcs| && e.c == c && e.i < |w.sys.slots|
    requires s'.pcs == s.pcs[c := Done(DropReply(Serially(w, base, log), e.i, e.retest, e.startOk))]
    ensures Answered(s', w, base, log + [e])
  {
    forall d: nat | d < |s'.pcs| && s'.pcs[d].Done? ensures Replied(w, base, log + [e], d, s'.pcs[d].reply) {
      if d == c {
        LastReply(w, base, log, e);
      } else {
        OtherReply(w, base, log, e, d, s.pcs[d].reply);
      }
    }
  }

  lemma LogGrows(w: World, base: int, actions: seq<Action>, log: seq<Entry>, e: Entry, a: Action)
    requires Called(|w.sys.slots|, actions, log) && e.i < |w.sys.slots| && Call(e.c, e.i) in actions
    ensures Called(|w.sys.slots|, actions + [a], log + [e])
  {
  }

  lemma LastReply(w: World, base: int, log: seq<Entry>, e: Entry)
    requires e.i < |w.sys.slots|
    ensures Replied(w, base, log + [e], e.c, DropReply(Serially(w, base, log), e.i, e.retest, e.startOk))
  {
    var longer := log + [e];
    assert longer[..|log|] == log;
    assert longer[|log|] == e;
    assert ReplyAt(w, base, longer, |log|) == DropReply(Serially(w, base, log), e.i, e.retest, e.startOk);
  }

  lemma OtherReply(w: World, base: int, log: seq<Entry>, e: Entry, d: nat, reply: Option<DropError>)
    requires Replied(w, base, log, d, reply) && e.c != d
    ensures Replied(w, base, log + [e], d, reply)
  {
    var longer := log + [e];
    var k :| 0 <= k < |log| && log[k].c == d && log[k].i < |w.sys.slots|
      && (forall m :: k < m < |log| ==> log[m].c != d) && reply == ReplyAt(w, base, log, k);
    assert longer[..k] == log[..k] && longer[k] == log[k];
    assert reply == ReplyAt(w, base, longer, k);
  }

  lemma StepSerialized(s: State, w: World, base: int, actions: seq<Action>, log: seq<Entry>, a: Action)
    returns (more: seq<Entry>)
    requires Serialized(s, w, base, actions, log) && Inv(s, base) && |s.slots| == |w.sys.slots|
    ensures Serialized(Next(s, base, a), w, base, actions + [a], log + more)
  {
    more := [];
    assert log + more == log;
    if a.Call? {
      CallSerialized(s, w, base, actions, log, a.caller, a.i);
    } else if !a.Advance? {
      TouchSerialized(s, w, base, actions, log, a);
    } else if a.caller < |s.pcs| && s.pcs[a.caller].Inside() {
      assert CallerOk(s, a.caller);
      if s.pcs[a.caller].Returning? {
        var e := ReturnSerialized(s, w, base, actions, log, a);
        more := [e];
      } else {
        WorkSerialized(s, w, base, actions, log, a);
      }
    } else if a.caller < |s.pcs| && s.pcs[a.caller].Waiting? && s.lock.None? {
      TakeSerialized(s, w, base, actions, log, a);
    } else {
      assert Next(s, base, a) == s;
      SameShows(s, s, Serially(w, base, log), base, actions, [a]);
    }
  }

  lemma StartSerialized(w: World, callers: nat, base: int)
    ensures Serialized(Start(w.sys, w.candidates, w.excluded, callers), w, base, [], [])
  {
  }

  lemma NextKeepsSize(s: State, base: int, a: Action)
    ensures |Next(s, base, a).slots| == |s.slots|
  {
  }

  lemma {:induction false} RunKeepsSize(s: State, base: int, actions: seq<Action>)
    ensures |Run(s, base, actions).slots| == |s.slots|
    decreases |actions|
  {
    if actions != [] {
      var front := actions[..|actions| - 1];
      RunKeepsSize(s, base, front);
      NextKeepsSize(Run(s, base, front), base, actions[|actions| - 1]);
    }
  }

  lemma {:induction false} RunSerialized(w: World, callers: nat, base: int, actions: seq<Action>)
    returns (log: seq<Entry>)
    requires Runs.Conserved(w.sys, base)
    ensures Serialized(Run(Start(w.sys, w.candidates, w.excluded, callers), base, actions), w, base, actions, log)
    decreases |actions|
  {
    var start := Start(w.sys, w.candidates, w.excluded, callers);
    if actions == [] {
      StartSerialized(w, callers, base);
      log := [];
    } else {
      var front, a := actions[..|actions| - 1], actions[|actions| - 1];
      log := RunSerialized(w, callers, base, front);
      StartInv(w.sys, w.candidates, w.excluded, callers, base);
      RunInv(start, base, front);
      RunKeepsSize(start, base, front);
      var more := StepSerialized(Run(start, base, front), w, base, front, log, a);
      assert actions == front + [a];
      log := log + more;
    }
  }

  /** The log explains the interleaving: every drop in it was called for; whenever the
      lock is free, the configs, handles and lifecycle states (up to draining), the
      processes, the exclusions and the candidates are those of the atomic drops; and
      each caller that is back got the reply of its last one. */
  ghost predicate Serializes(w: World, callers: nat, base: int, actions: seq<Action>, log: seq<Entry>) {
    var s, end := Run(Start(w.sys, w.candidates, w.excluded, callers), base, actions), Serially(w, base, log);
    && Called(|w.sys.slots|, actions, log)
    && (s.lock.None? ==> Looks(s, Cores(end.sys.slots), end.sys.os, end.excluded, end.candidates))
    && Answered(s, w, base, log)
  }

  /** Every interleaving is equivalent to a log of atomic drops in lock order. */
  lemma DropsAreSerializable(w: World, callers: nat, base: int, actions: seq<Action>) returns (log: seq<Entry>)
    requires Runs.Conserved(w.sys, base)
    ensures Serializes(w, callers, base, actions, log)
  {
    log := RunSerialized(w, callers, base, actions);
  }

  // ----- what atomic drops keep, interleaved ones keep -----

  /** Promoted by the drop at position `k` of the log. */
  function PromotedAt(w: World, base: int, log: seq<Entry>, k: nat): Option<TestResult>
    requires k < |log| && log[k].i < |w.sys.slots|
  {
    DropPromotes(Serially(w, base, log[..k]), log[k].i, log[k].retest, log[k].startOk)
  }

  lemma {:induction false} SeriallySealed(w: World, base: int, log: seq<Entry>)
    requires Runs.Sealed(w)
    ensures Runs.Sealed(Serially(w, base, log))
    decreases |log|
  {
    if log != [] {
      var before, e := Serially(w, base, log[..|log| - 1]), log[|log| - 1];
      SeriallySealed(w, base, log[..|log| - 1]);
      if e.i < |w.sys.slots| { Runs.DropSealed(before, base, e.i, e.retest, e.startOk); }
    }
  }

  lemma CoresSealed(slots: seq<Slot>, other: seq<Slot>)
    requires Cores(slots) == Cores(other) && Runs.SealedSlots(other)
    ensures Runs.SealedSlots(slots)
  {
    forall i | 0 <= i < |slots| && slots[i].Serving()
      ensures slots[i].config.Some? && Protocols.Proxied(slots[i].config.value)
    {
      assert Cores(slots)[i] == Core(slots[i]) && Cores(other)[i] == Core(other[i]);
      assert Core(slots[i]) == Core(other[i]);
    }
  }

  lemma {:induction false} SeriallyExcludes(w: World, base: int, log: seq<Entry>, k: nat)
    requires k <= |log|
    ensures Serially(w, base, log[..k]).excluded <= Serially(w, base, log).excluded
    decreases |log|
  {
    if k == |log| {
      assert log[..k] == log;
    } else {
      var front := log[..|log| - 1];
      assert front[..k] == log[..k];
      SeriallyExcludes(w, base, front, k);
    }
  }

  /** What is excluded is promoted by no drop of the log. */
  lemma ExcludedIsNotPromoted(w: World, base: int, log: seq<Entry>, k: nat, raw: string)
    requires k < |log| && log[k].i < |w.sys.slots| && raw in w.excluded
    ensures var c := PromotedAt(w, base, log, k); c.Some? ==> c.value.config.raw != raw
  {
    assert log[..k][..0] == [];
    SeriallyExcludes(w, base, log[..k], 0);
  }
}
