/** What the slot counters and states mean in terms of everything that ever happened
    to them: any interleaving of the pool's primitive operations, by any code. */
module Ledger {
  import opened Base
  import opened WanSpec
  import opened Cycle

  /** One primitive operation. `End(k)` closes the connection begun by event `k`. */
  datatype Event =
    | Begin(i: nat)
    | End(k: nat)
    | Fail(i: nat)
    | Succeed(i: nat)
    | Prepare(i: nat, cfg: ProxyConfig)
    | Activate(i: nat, cmd: Option<Handle>)
    | Drain(i: nat, now: int)
    | Clear(i: nat)

  /** Connections are closed at most once, and only after they began. */
  ghost predicate WellFormed(tr: seq<Event>) {
    && (forall m :: 0 <= m < |tr| && tr[m].End? ==> tr[m].k < m && tr[tr[m].k].Begin?)
    && (forall m, n :: 0 <= m < n < |tr| && tr[m].End? && tr[n].End? ==> tr[m].k != tr[n].k)
  }

  /** The effect of event `e` on slot `i`, at the end of the trace `tr`. */
  function Effect(s: Slot, i: nat, tr: seq<Event>, e: Event): Slot {
    match e
    case Begin(j) => if j == i then s.Begun() else s
    case End(k) => if k < |tr| && tr[k] == Begin(i) then s.Ended() else s
    case Fail(j) => if j == i then s.Failed() else s
    case Succeed(j) => if j == i then s.Succeeded() else s
    case Prepare(j, cfg) => if j == i then s.Prepared(cfg) else s
    case Activate(j, cmd) => if j == i then s.Activated(cmd) else s
    case Drain(j, now) => if j == i then s.Drained(now) else s
    case Clear(j) => if j == i then EMPTY_SLOT else s
  }

  /** Slot `i` after the whole trace. */
  function SlotAfter(tr: seq<Event>, i: nat): Slot {
    if tr == [] then EMPTY_SLOT
    else
      var front := tr[..|tr| - 1];
      Effect(SlotAfter(front, i), i, front, tr[|tr| - 1])
  }

  /** The position after the last event that satisfies `p`, or 0. */
  function Since(tr: seq<Event>, p: Event -> bool): (r: nat)
    ensures r <= |tr|
    ensures r > 0 ==> p(tr[r - 1])
    ensures forall m :: r <= m < |tr| ==> !p(tr[m])
  {
    if tr == [] then 0 else if p(tr[|tr| - 1]) then |tr| else Since(tr[..|tr| - 1], p)
  }

  function IsClear(i: nat): Event -> bool {
    (e: Event) => e == Clear(i)
  }

  /** Connections begun on slot `i` and not closed, by the event that began them. */
  function Open(tr: seq<Event>, i: nat): set<nat> {
    set k | 0 <= k < |tr| && tr[k] == Begin(i) && End(k) !in tr
  }

  /** Those that were open when the slot was last cleared. */
  function OpenAtClear(tr: seq<Event>, i: nat): set<nat> {
    Open(tr[..Since(tr, IsClear(i))], i)
  }

  lemma PrefixWellFormed(tr: seq<Event>, n: nat)
    requires WellFormed(tr) && n <= |tr|
    ensures WellFormed(tr[..n])
  {
  }

  /** How one event changes the set of open connections. */
  lemma OpenStep(front: seq<Event>, e: Event, i: nat)
    requires WellFormed(front + [e])
    ensures Open(front + [e], i) ==
      match e
        case Begin(j) => if j == i then Open(front, i) + {|front|} else Open(front, i)
        case End(k) => Open(front, i) - {k}
        case _ => Open(front, i)
    ensures e.End? && e.k < |front| && front[e.k] == Begin(i) ==> e.k in Open(front, i)
  {
    var tr := front + [e];
    assert tr[|front|] == e;
    forall k | 0 <= k < |tr| ensures End(k) in tr <==> End(k) in front || e == End(k) {
    }
    forall m | 0 <= m < |front| ensures front[m] != End(|front|) {
      assert tr[m] == front[m];
    }
    if e.End? {
      forall m | 0 <= m < |front| ensures front[m] != e {
        assert tr[m] == front[m] && tr[|front|] == e;
      }
    }
  }

  lemma OpenAtClearStep(front: seq<Event>, e: Event, i: nat)
    ensures OpenAtClear(front + [e], i) == if e == Clear(i) then Open(front + [e], i) else OpenAtClear(front, i)
  {
    var tr := front + [e];
    assert tr[..|front|] == front && tr[..|tr|] == tr;
    var r := Since(front, IsClear(i));
    assert tr[..r] == front[..r];
  }

  lemma SlotStep(front: seq<Event>, e: Event, i: nat)
    ensures SlotAfter(front + [e], i) == Effect(SlotAfter(front, i), i, front, e)
  {
    assert (front + [e])[..|front|] == front;
  }

  /** A slot's counter is the number of its open connections, less those that were
      open when it was last cleared. */
  lemma {:induction false} ConnsLaw(tr: seq<Event>, i: nat)
    requires WellFormed(tr)
    ensures SlotAfter(tr, i).conns == |Open(tr, i)| - |OpenAtClear(tr, i)|
    decreases |tr|
  {
    if tr != [] {
      var front, e := tr[..|tr| - 1], tr[|tr| - 1];
      assert tr == front + [e];
      PrefixWellFormed(tr, |tr| - 1);
      ConnsLaw(front, i);
      ConnsStep(front, e, i);
    }
  }

  lemma ConnsStep(front: seq<Event>, e: Event, i: nat)
    requires WellFormed(front + [e]) && SlotAfter(front, i).conns == |Open(front, i)| - |OpenAtClear(front, i)|
    ensures SlotAfter(front + [e], i).conns == |Open(front + [e], i)| - |OpenAtClear(front + [e], i)|
  {
    OpenStep(front, e, i);
    OpenAtClearStep(front, e, i);
    SlotStep(front, e, i);
    assert |front| !in Open(front, i);
    if e.End? && !(e.k < |front| && front[e.k] == Begin(i)) {
      assert e.k !in Open(front, i);
      assert Open(front, i) - {e.k} == Open(front, i);
    }
  }

  /** Connections begun since the last clearing and still open. */
  function NewOpen(tr: seq<Event>, i: nat): set<nat> {
    set k | Since(tr, IsClear(i)) <= k < |tr| && tr[k] == Begin(i) && End(k) !in tr
  }

  /** Connections begun before the last clearing and closed since. */
  function OldClosed(tr: seq<Event>, i: nat): set<nat> {
    var r := Since(tr, IsClear(i));
    set k | 0 <= k < r && tr[k] == Begin(i) && End(k) !in tr[..r] && End(k) in tr
  }

  /** Connections begun before the last clearing and still open. */
  function OldOpen(tr: seq<Event>, i: nat): set<nat> {
    set k | 0 <= k < Since(tr, IsClear(i)) && tr[k] == Begin(i) && End(k) !in tr
  }

  lemma OpenSplits(tr: seq<Event>, i: nat)
    ensures Open(tr, i) == NewOpen(tr, i) + OldOpen(tr, i) && NewOpen(tr, i) !! OldOpen(tr, i)
  {
  }

  lemma OpenAtClearSplits(tr: seq<Event>, i: nat)
    ensures OpenAtClear(tr, i) == OldClosed(tr, i) + OldOpen(tr, i) && OldClosed(tr, i) !! OldOpen(tr, i)
  {
    var r := Since(tr, IsClear(i));
    assert forall k :: 0 <= k < r ==> tr[..r][k] == tr[k];
    assert forall e :: e in tr[..r] ==> e in tr;
  }

  /** The same by epochs: begun since the last clearing and still open, minus begun
      before it and closed since. */
  lemma ConnsByEpoch(tr: seq<Event>, i: nat)
    requires WellFormed(tr)
    ensures SlotAfter(tr, i).conns == |NewOpen(tr, i)| - |OldClosed(tr, i)|
  {
    ConnsLaw(tr, i);
    OpenSplits(tr, i);
    OpenAtClearSplits(tr, i);
  }

  /** The counter is the true number of open connections, and so not negative,
      exactly when nothing was open at the last clearing. */
  lemma ConnsTrueIff(tr: seq<Event>, i: nat)
    requires WellFormed(tr)
    ensures SlotAfter(tr, i).conns == |Open(tr, i)| <==> OpenAtClear(tr, i) == {}
    ensures OpenAtClear(tr, i) == {} ==> SlotAfter(tr, i).conns >= 0
  {
    ConnsLaw(tr, i);
  }

  /** It is not enough that no connection from before the clearing is open now:
      closing it after the clearing drives the counter below zero. */
  lemma ClearedThenClosed()
    ensures var tr := [Begin(0), Clear(0), End(0)];
      WellFormed(tr) && Open(tr, 0) == {} && SlotAfter(tr, 0).conns == -1
  {
    var tr := [Begin(0), Clear(0), End(0)];
    assert tr[2] == End(0);
    var t2, t1 := tr[..2], tr[..2][..1];
    assert t2 == [Begin(0), Clear(0)] && t1 == [Begin(0)] && t1[..0] == [];
    assert SlotAfter(t2, 0) == EMPTY_SLOT;
  }

  function IsRecovery(i: nat): Event -> bool {
    (e: Event) => e == Succeed(i) || e == Clear(i)
  }

  /** Failures recorded on slot `i` since its last success or clearing. */
  function RecentFails(tr: seq<Event>, i: nat): set<nat> {
    set m | Since(tr, IsRecovery(i)) <= m < |tr| && tr[m] == Fail(i)
  }

  lemma RecentFailsStep(front: seq<Event>, e: Event, i: nat)
    ensures RecentFails(front + [e], i) ==
      if IsRecovery(i)(e) then {} else if e == Fail(i) then RecentFails(front, i) + {|front|} else RecentFails(front, i)
  {
    var tr := front + [e];
    assert tr[..|front|] == front && tr[|front|] == e;
    assert forall m :: 0 <= m < |front| ==> tr[m] == front[m];
  }

  /** `ConsecutiveFails` counts exactly these. */
  lemma {:induction false} FailsLaw(tr: seq<Event>, i: nat)
    ensures SlotAfter(tr, i).fails == |RecentFails(tr, i)|
    decreases |tr|
  {
    if tr != [] {
      var front, e := tr[..|tr| - 1], tr[|tr| - 1];
      assert tr == front + [e];
      FailsLaw(front, i);
      RecentFailsStep(front, e, i);
      SlotStep(front, e, i);
      assert |front| !in RecentFails(front, i);
    }
  }

  /** The arrows of the lifecycle: empty, testing, active, draining, and back to empty
      from anywhere. */
  predicate Arrow(a: SlotState, b: SlotState) {
    a == b || b.Empty? || (a.Empty? && b.Testing?) || (a.Testing? && b.Active?) || (a.Active? && b.Draining?)
  }

  lemma StepsFollowArrows(tr: seq<Event>, i: nat, n: nat)
    requires n < |tr|
    ensures Arrow(SlotAfter(tr[..n], i).state, SlotAfter(tr[..n + 1], i).state)
  {
    assert tr[..n + 1][..n] == tr[..n];
  }

  /** A draining slot never becomes active again without having been empty. */
  lemma {:induction false} DrainingStaysUntilEmpty(tr: seq<Event>, i: nat, a: nat, b: nat)
    requires a <= b <= |tr| && SlotAfter(tr[..a], i).state.Draining?
    requires forall t :: a <= t <= b ==> !SlotAfter(tr[..t], i).state.Empty?
    ensures SlotAfter(tr[..b], i).state.Draining?
    decreases b
  {
    if a < b {
      DrainingStaysUntilEmpty(tr, i, a, b - 1);
      StepsFollowArrows(tr, i, b - 1);
    }
  }

  /** What one keepalive pass does to a serving slot: a failed probe counts, a passed one
      clears the count; an active slot that reaches the threshold is drained at the time
      of its probe; an address found is noted; nothing else changes. */
  lemma ProbeMeans(slots: seq<Slot>, probes: seq<Probe>, threshold: int, i: nat)
    requires |probes| == |slots| && i < |slots| && slots[i].state in {Active, Draining}
    ensures var s, o, s' := slots[i], probes[i], Probed(slots, probes, threshold)[i];
      var drains := s.state == Active && !o.ok && threshold > 0 && s.fails + 1 >= threshold;
      && s'.fails == (if o.ok then 0 else s.fails + 1)
      && s'.state == (if drains then Draining else s.state)
      && s'.drainAt == (if drains then Some(o.at) else s.drainAt)
      && s'.exitIp == (if o.ok && o.exitIp.Some? then o.exitIp.value else s.exitIp)
      && s'.lastProbe == (if o.ok && o.exitIp.Some? then Some(o.at) else s.lastProbe)
      && s'.config == s.config && s'.cmd == s.cmd && s'.conns == s.conns
      && s'.speed == s.speed && s'.stability == s.stability
  {
  }

  /** A slot that serves nothing is not probed. */
  lemma OthersAreNotProbed(slots: seq<Slot>, probes: seq<Probe>, threshold: int, i: nat)
    requires |probes| == |slots| && i < |slots| && slots[i].state in {Empty, Testing}
    ensures Probed(slots, probes, threshold)[i] == slots[i]
  {
  }

  /** Failed passes add up: an active slot drains at its n-th failure in a row, not before. */
  lemma {:induction false} FailedPassesDrain(s: Slot, o: Probe, threshold: int, n: nat)
    requires s.state == Active && s.fails == 0 && !o.ok && 0 <= n <= threshold
    ensures var s' := Passes(s, o, threshold, n);
      s'.fails == n && s'.state == if 0 < threshold <= n then Draining else Active
  {
    if n > 0 {
      FailedPassesDrain(s, o, threshold, n - 1);
    }
  }

  /** A slot after `n` passes with the same probe. */
  function Passes(s: Slot, o: Probe, threshold: int, n: nat): Slot {
    if n == 0 then s else Probed([Passes(s, o, threshold, n - 1)], [o], threshold)[0]
  }

  /** After an undisturbed keepalive pass every active slot was active before and is
      below the failure threshold; the newly draining ones are those that failed
      their probe and reached it. */
  lemma PassLeavesHealthyActives(slots: seq<Slot>, probes: seq<Probe>, threshold: int, i: nat)
    requires |probes| == |slots| && i < |slots| && threshold > 0
    ensures var after := Probed(slots, probes, threshold)[i];
      && (after.state.Active? ==> slots[i].state.Active? && after.fails < threshold)
      && (slots[i].state.Active? ==>
            (after.state.Draining? <==> !probes[i].ok && slots[i].fails + 1 >= threshold))
      && (slots[i].Serving() && probes[i].ok ==> after.fails == 0)
      && (!slots[i].Serving() ==> after == slots[i])
  {
  }
}
