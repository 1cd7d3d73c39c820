/** The WAN pool as values: one snapshot per slot, the table of started
    processes, and each pool operation as a function of the state before. */
module WanSpec {
  import opened Base

  datatype SlotState = Empty | Testing | Active | Draining

  datatype Slot = Slot(state: SlotState, config: Option<ProxyConfig>, cmd: Option<Handle>,
                       conns: int, fails: int, speed: real, stability: int,
                       drainAt: Option<int>, exitIp: string, lastProbe: Option<int>)
  {
    /** Active and draining slots carry traffic. */
    predicate Serving() {
      state.Active? || state.Draining?
    }

    predicate Routable(threshold: int) {
      Serving() && fails < threshold && cmd.Some?
    }

    predicate Serves(server: string, port: int) {
      Serving() && config.Some? && config.value.server == server && config.value.port == port
    }

    function Prepared(cfg: ProxyConfig): Slot {
      if state.Empty? then this.(state := Testing, config := Some(cfg)) else this
    }

    function Activated(h: Option<Handle>): Slot {
      if state.Testing? then this.(state := Active, cmd := h) else this
    }

    function Begun(): Slot { this.(conns := conns + 1) }

    function Ended(): Slot { this.(conns := conns - 1) }

    function Failed(): Slot { this.(fails := fails + 1) }

    function Succeeded(): Slot { this.(fails := 0) }

    function Drained(now: int): Slot {
      if state.Active? then this.(state := Draining, drainAt := Some(now)) else this
    }
  }

  const EMPTY_SLOT := Slot(Empty, None, None, 0, 0, 0.0, 0, None, "", None)

  const DEFAULT_FAIL_THRESHOLD := 2

  /** Service processes that were started and not stopped, with their listening
      port; handles below `next` are used up. */
  datatype Os = Os(live: map<Handle, int>, next: Handle) {
    function Spawn(port: int): Os {
      Os(live[next := port], next + 1)
    }

    function Kill(cmd: Option<Handle>): Os {
      if cmd.Some? then this.(live := live - {cmd.value}) else this
    }
  }

  datatype Sys = Sys(slots: seq<Slot>, os: Os)

  function Reset(s: Sys, i: nat): (r: Sys)
    requires i < |s.slots|
    ensures |r.slots| == |s.slots|
  {
    Sys(s.slots[i := EMPTY_SLOT], s.os.Kill(s.slots[i].cmd))
  }

  /** Reset applied to a list of slot indices, first to last. */
  function ResetAll(s: Sys, idxs: seq<nat>): (r: Sys)
    requires forall k :: 0 <= k < |idxs| ==> idxs[k] < |s.slots|
    ensures |r.slots| == |s.slots|
    decreases |idxs|
  {
    if idxs == [] then s else ResetAll(Reset(s, idxs[0]), idxs[1..])
  }

  /** Ascending indices of the slots that satisfy `p`. */
  function Where(slots: seq<Slot>, p: Slot -> bool): (r: seq<nat>)
    ensures forall k :: 0 <= k < |r| ==> r[k] < |slots| && p(slots[r[k]])
  {
    if slots == [] then []
    else
      var n := |slots| - 1;
      Where(slots[..n], p) + if p(slots[n]) then [n] else []
  }

  lemma {:induction false} WhereMembers(slots: seq<Slot>, p: Slot -> bool)
    ensures forall i :: i in Where(slots, p) <==> 0 <= i < |slots| && p(slots[i])
  {
    if slots != [] {
      var n := |slots| - 1;
      WhereMembers(slots[..n], p);
      assert forall i :: 0 <= i < n ==> slots[..n][i] == slots[i];
    }
  }

  lemma {:induction false} WhereNone(slots: seq<Slot>, p: Slot -> bool)
    requires forall i :: 0 <= i < |slots| ==> !p(slots[i])
    ensures Where(slots, p) == []
  {
    if slots != [] {
      WhereNone(slots[..|slots| - 1], p);
    }
  }

  lemma {:induction false} WhereAscends(slots: seq<Slot>, p: Slot -> bool)
    ensures forall a, b :: 0 <= a < b < |Where(slots, p)| ==> Where(slots, p)[a] < Where(slots, p)[b]
  {
    if slots != [] {
      WhereAscends(slots[..|slots| - 1], p);
    }
  }

  lemma {:induction false} WhereIsAll(slots: seq<Slot>, p: Slot -> bool)
    ensures |Where(slots, p)| <= |slots|
    ensures |Where(slots, p)| == |slots| <==> forall i :: 0 <= i < |slots| ==> p(slots[i])
  {
    if slots != [] {
      var n := |slots| - 1;
      WhereIsAll(slots[..n], p);
      assert forall i :: 0 <= i < n ==> slots[..n][i] == slots[i];
    }
  }

  /** A scan counts exactly the matching indices. */
  lemma {:induction false} WhereCounts(slots: seq<Slot>, p: Slot -> bool)
    ensures |Where(slots, p)| == |set i | 0 <= i < |slots| && p(slots[i])|
  {
    var all := set i | 0 <= i < |slots| && p(slots[i]);
    if slots == [] {
      assert all == {};
    } else {
      WhereCounts(slots[..|slots| - 1], p);
      MatchingStep(slots, p);
    }
  }

  lemma MatchingStep(slots: seq<Slot>, p: Slot -> bool)
    requires slots != []
    ensures var n, front := |slots| - 1, slots[..|slots| - 1];
      |set i | 0 <= i < |slots| && p(slots[i])|
        == |set i | 0 <= i < |front| && p(front[i])| + if p(slots[n]) then 1 else 0
  {
    var n, front := |slots| - 1, slots[..|slots| - 1];
    var before := set i | 0 <= i < |front| && p(front[i]);
    assert (set i | 0 <= i < |slots| && p(slots[i])) == before + if p(slots[n]) then {n} else {};
  }

  /** Filling the first listed slot takes exactly it off the list. */
  lemma {:induction false} WhereDropFirst(slots: seq<Slot>, p: Slot -> bool, x: Slot)
    requires Where(slots, p) != [] && !p(x)
    ensures Where(slots[Where(slots, p)[0] := x], p) == Where(slots, p)[1..]
  {
    var n := |slots| - 1;
    var w, last := Where(slots[..n], p), if p(slots[n]) then [n] else [];
    assert Where(slots, p) == w + last;
    var i := Where(slots, p)[0];
    var u := slots[i := x];
    assert Where(u, p) == Where(u[..n], p) + if p(u[n]) then [n] else [];
    if w == [] {
      assert u[..n] == slots[..n];
    } else {
      assert i == w[0] && (w + last)[1..] == w[1..] + last;
      assert u[..n] == slots[..n][i := x];
      WhereDropFirst(slots[..n], p, x);
    }
  }

  lemma {:induction false} WhereSame(slots: seq<Slot>, p: Slot -> bool, i: nat, x: Slot)
    requires i < |slots| && p(x) == p(slots[i])
    ensures Where(slots[i := x], p) == Where(slots, p)
  {
    var n := |slots| - 1;
    if i == n {
      assert slots[i := x][..n] == slots[..n];
    } else {
      WhereSame(slots[..n], p, i, x);
      assert slots[i := x][..n] == slots[..n][i := x];
    }
  }

  function InState(states: set<SlotState>): Slot -> bool {
    (s: Slot) => s.state in states
  }

  function RoutableAt(threshold: int): Slot -> bool {
    (s: Slot) => s.Routable(threshold)
  }

  /** Drained for at least the grace period. */
  function ExpiredAt(now: int, grace: int): Slot -> bool {
    (s: Slot) => s.state.Draining? && s.drainAt.Some? && now - s.drainAt.value >= grace
  }

  /** Serving, but the process is gone. */
  function DeadAmong(alive: set<Handle>): Slot -> bool {
    (s: Slot) => s.Serving() && !(s.cmd.Some? && s.cmd.value in alive)
  }

  function ByState(slots: seq<Slot>, states: set<SlotState>): seq<nat> {
    Where(slots, InState(states))
  }

  function Empties(slots: seq<Slot>): seq<nat> {
    ByState(slots, {Empty})
  }

  function Actives(slots: seq<Slot>): seq<nat> {
    ByState(slots, {Active})
  }

  function ServingSlots(slots: seq<Slot>): seq<nat> {
    ByState(slots, {Active, Draining})
  }

  predicate Served(slots: seq<Slot>, server: string, port: int) {
    exists i :: 0 <= i < |slots| && slots[i].Serves(server, port)
  }

  /** Prepare slot `i` for `cfg`, start its service process on `port`, and activate
      it with the measured figures, or clear it when the start fails. */
  function Promote(s: Sys, i: nat, cfg: ProxyConfig, port: int, startOk: bool, speed: real, stability: int): (r: Sys)
    requires i < |s.slots|
    ensures |r.slots| == |s.slots|
  {
    var prepared := s.slots[i].Prepared(cfg);
    if !startOk then Reset(s.(slots := s.slots[i := prepared]), i)
    else Sys(s.slots[i := prepared.Activated(Some(s.os.next)).(speed := speed, stability := stability)],
      s.os.Spawn(port))
  }

  /** `r` is the lowest index with the fewest connections among the slots that
      satisfy `p`, or -1 when none does. */
  ghost predicate LeastOf(slots: seq<Slot>, p: Slot -> bool, r: int) {
    if r == -1 then forall i :: 0 <= i < |slots| ==> !p(slots[i])
    else
      && 0 <= r < |slots| && p(slots[r])
      && forall i :: 0 <= i < |slots| && p(slots[i]) ==>
           slots[r].conns <= slots[i].conns && (i < r ==> slots[r].conns < slots[i].conns)
  }

  lemma LeastStep(slots: seq<Slot>, p: Slot -> bool, i: nat, best: int)
    requires i < |slots| && LeastOf(slots[..i], p, best)
    ensures LeastOf(slots[..i + 1], p, if p(slots[i]) && (best == -1 || slots[i].conns < slots[best].conns) then i
      else best)
  {
    assert slots[..i + 1][i] == slots[i];
    assert forall j :: 0 <= j < i ==> slots[..i + 1][j] == slots[..i][j];
  }

  /** The balancer's choice: among routable slots, or among all serving slots
      when none is routable. */
  ghost predicate LeastLoaded(slots: seq<Slot>, threshold: int, r: int) {
    if exists i :: 0 <= i < |slots| && slots[i].Routable(threshold)
    then LeastOf(slots, RoutableAt(threshold), r)
    else LeastOf(slots, InState({Active, Draining}), r)
  }

  function Score(slots: seq<Slot>, i: int): int {
    if 0 <= i < |slots| then slots[i].stability else 0
  }

  /** The earliest listed slot with the highest stability score, or -1. */
  function Churniest(slots: seq<Slot>, listed: seq<int>): int
  {
    if listed == [] then -1
    else if |listed| == 1 then listed[0]
    else
      var b := Churniest(slots, listed[..|listed| - 1]);
      var last := listed[|listed| - 1];
      if Score(slots, last) > Score(slots, b) then last else b
  }

  /** `r` is listed at `k`, has the highest score, and no earlier entry has it. */
  ghost predicate FirstMaximum(slots: seq<Slot>, listed: seq<int>, k: int, r: int) {
    && 0 <= k < |listed| && r == listed[k]
    && (forall j :: 0 <= j < |listed| ==> Score(slots, listed[j]) <= Score(slots, r))
    && (forall j :: 0 <= j < k ==> Score(slots, listed[j]) < Score(slots, r))
  }

  /** Ties go to the slot listed first. */
  lemma {:induction false} ChurniestIsFirstMaximum(slots: seq<Slot>, listed: seq<int>)
    requires listed != []
    ensures exists k :: FirstMaximum(slots, listed, k, Churniest(slots, listed))
  {
    var n := |listed| - 1;
    if n == 0 {
      assert FirstMaximum(slots, listed, 0, Churniest(slots, listed));
    } else {
      var front := listed[..n];
      ChurniestIsFirstMaximum(slots, front);
      var k :| FirstMaximum(slots, front, k, Churniest(slots, front));
      assert forall j :: 0 <= j < n ==> front[j] == listed[j];
      var m := if Score(slots, listed[n]) > Score(slots, front[k]) then n else k;
      assert FirstMaximum(slots, listed, m, Churniest(slots, listed));
    }
  }

  function RoutableOnes(slots: seq<Slot>, threshold: int): seq<nat> {
    Where(slots, RoutableAt(threshold))
  }

  function Expired(slots: seq<Slot>, now: int, grace: int): seq<nat> {
    Where(slots, ExpiredAt(now, grace))
  }

  function DeadOnes(slots: seq<Slot>, alive: set<Handle>): seq<nat> {
    Where(slots, DeadAmong(alive))
  }

  /** The first `n` slots checked in order, each dead one cleared on the way. */
  function ReapedFirst(s: Sys, alive: set<Handle>, n: nat): (r: Sys)
    requires n <= |s.slots|
    ensures |r.slots| == |s.slots|
  {
    ResetAll(s, DeadOnes(s.slots[..n], alive))
  }

  function Reaped(s: Sys, alive: set<Handle>): (r: Sys)
    ensures |r.slots| == |s.slots|
  {
    ResetAll(s, DeadOnes(s.slots, alive))
  }

  /** Clearing a list of slots clears exactly those. */
  lemma {:induction false} ResetAllExactly(s: Sys, idxs: seq<nat>, i: nat)
    requires i < |s.slots| && forall k :: 0 <= k < |idxs| ==> idxs[k] < |s.slots|
    ensures ResetAll(s, idxs).slots[i] == if i in idxs then EMPTY_SLOT else s.slots[i]
    decreases |idxs|
  {
    if idxs != [] {
      ResetAllExactly(Reset(s, idxs[0]), idxs[1..], i);
      assert idxs == [idxs[0]] + idxs[1..];
    }
  }

  /** And stops exactly the processes they hold. */
  lemma {:induction false} ResetAllStops(s: Sys, idxs: seq<nat>, h: Handle)
    requires forall k :: 0 <= k < |idxs| ==> idxs[k] < |s.slots|
    ensures h in ResetAll(s, idxs).os.live <==>
      h in s.os.live && forall k :: 0 <= k < |idxs| ==> s.slots[idxs[k]].cmd != Some(h)
    ensures h in ResetAll(s, idxs).os.live ==> ResetAll(s, idxs).os.live[h] == s.os.live[h]
    decreases |idxs|
  {
    if idxs != [] {
      var s' := Reset(s, idxs[0]);
      ResetAllStops(s', idxs[1..], h);
      if forall k :: 0 <= k < |idxs[1..]| ==> s'.slots[idxs[1..][k]].cmd != Some(h) {
        forall k | 0 < k < |idxs| && s.slots[idxs[k]].cmd == Some(h) ensures s.slots[idxs[0]].cmd == Some(h) {
          assert idxs[1..][k - 1] == idxs[k];
        }
      }
      forall k | 0 <= k < |idxs[1..]| && s'.slots[idxs[1..][k]].cmd == Some(h)
        ensures s.slots[idxs[k + 1]].cmd == Some(h)
      {
        assert idxs[1..][k] == idxs[k + 1];
      }
    }
  }

  /** Clearing earlier slots does not change whether slot `n` is dead. */
  lemma ReapStep(s: Sys, alive: set<Handle>, n: nat)
    requires n < |s.slots|
    ensures ReapedFirst(s, alive, n).slots[n] == s.slots[n]
    ensures DeadOnes(s.slots[..n + 1], alive) == DeadOnes(s.slots[..n], alive) + if DeadAmong(alive)(s.slots[n])
      then [n] else []
    ensures ReapedFirst(s, alive, n + 1) == if DeadAmong(alive)(s.slots[n]) then Reset(ReapedFirst(s, alive, n), n)
      else ReapedFirst(s, alive, n)
  {
    assert s.slots[..n + 1][..n] == s.slots[..n];
    var d := DeadOnes(s.slots[..n], alive);
    assert d + [] == d;
    ResetAllExactly(s, d, n);
    ResetAllSnoc(s, d, n);
  }

  lemma {:induction false} ResetAllSnoc(s: Sys, idxs: seq<nat>, i: nat)
    requires i < |s.slots| && forall k :: 0 <= k < |idxs| ==> idxs[k] < |s.slots|
    ensures ResetAll(s, idxs + [i]) == Reset(ResetAll(s, idxs), i)
    decreases |idxs|
  {
    if idxs == [] {
      assert ([] + [i])[1..] == [];
    } else {
      assert (idxs + [i])[1..] == idxs[1..] + [i];
      ResetAllSnoc(Reset(s, idxs[0]), idxs[1..], i);
    }
  }

  /** The first `n` slots marked draining if active. */
  function DrainFirst(s: Sys, n: nat, now: int): (r: Sys)
    requires n <= |s.slots|
    ensures |r.slots| == |s.slots|
  {
    s.(slots := seq(|s.slots|, i requires 0 <= i < |s.slots| => if i < n then s.slots[i].Drained(now) else s.slots[i]))
  }

  /** The first `n` slots cleared, lowest first. */
  function ResetFirst(s: Sys, n: nat): (r: Sys)
    requires n <= |s.slots|
    ensures |r.slots| == |s.slots|
  {
    if n == 0 then s else Reset(ResetFirst(s, n - 1), n - 1)
  }

  function Shutdown(s: Sys, now: int): Sys {
    ResetFirst(DrainFirst(s, |s.slots|, now), |s.slots|)
  }

  lemma {:induction false} ResetFirstExactly(s: Sys, n: nat, h: Handle)
    requires n <= |s.slots|
    ensures forall i :: 0 <= i < |s.slots| ==> ResetFirst(s, n).slots[i] == if i < n then EMPTY_SLOT else s.slots[i]
    ensures h in ResetFirst(s, n).os.live <==> h in s.os.live && forall i :: 0 <= i < n ==> s.slots[i].cmd != Some(h)
  {
    if n > 0 {
      ResetFirstExactly(s, n - 1, h);
    }
  }

  /** A shutdown empties every slot and stops every process a slot holds. */
  lemma ShutdownExactly(s: Sys, now: int, h: Handle)
    ensures |Shutdown(s, now).slots| == |s.slots|
    ensures forall i :: 0 <= i < |s.slots| ==> Shutdown(s, now).slots[i] == EMPTY_SLOT
    ensures h in Shutdown(s, now).os.live <==>
      h in s.os.live && forall i :: 0 <= i < |s.slots| ==> s.slots[i].cmd != Some(h)
  {
    var d := DrainFirst(s, |s.slots|, now);
    ResetFirstExactly(d, |s.slots|, h);
    assert forall i :: 0 <= i < |s.slots| ==> d.slots[i].cmd == s.slots[i].cmd;
  }

  /** The pick in terms of slot fields: the lowest index with the fewest connections
      among the routable slots, or among the serving ones if none is routable. */
  lemma LeastLoadedMeans(slots: seq<Slot>, threshold: int, r: int)
    requires LeastLoaded(slots, threshold, r)
    ensures var serving := set i | 0 <= i < |slots| && slots[i].state in {Active, Draining};
      var routable := set i | i in serving && slots[i].fails < threshold && slots[i].cmd.Some?;
      var from := if routable != {} then routable else serving;
      if from == {} then r == -1
      else r in from && forall i :: i in from ==>
        slots[r].conns < slots[i].conns || (slots[r].conns == slots[i].conns && r <= i)
  {
    var serving := set i | 0 <= i < |slots| && slots[i].state in {Active, Draining};
    var routable := set i | i in serving && slots[i].fails < threshold && slots[i].cmd.Some?;
    assert forall i :: 0 <= i < |slots| ==> (i in serving <==> slots[i].Serving());
    assert forall i :: 0 <= i < |slots| ==> (i in routable <==> slots[i].Routable(threshold));
    assert routable != {} <==> exists i :: 0 <= i < |slots| && slots[i].Routable(threshold);
  }

  /** A scan by state lists exactly the slots in one of the states, in ascending order. */
  lemma ByStateMeans(slots: seq<Slot>, states: set<SlotState>)
    ensures var r := ByState(slots, states);
      && (forall i :: i in r <==> 0 <= i < |slots| && slots[i].state in states)
      && (forall a, b :: 0 <= a < b < |r| ==> r[a] < r[b])
  {
    WhereMembers(slots, InState(states));
    WhereAscends(slots, InState(states));
  }

  /** Active and draining slots are counted as serving. */
  lemma ServingCountMeans(slots: seq<Slot>)
    ensures |ServingSlots(slots)| == |set i | 0 <= i < |slots| && slots[i].state in {Active, Draining}|
  {
    WhereCounts(slots, InState({Active, Draining}));
    assert (set i | 0 <= i < |slots| && slots[i].state in {Active, Draining})
      == set i | 0 <= i < |slots| && InState({Active, Draining})(slots[i]);
  }

  /** An endpoint is served when some active or draining slot is configured for it. */
  lemma ServedMeans(slots: seq<Slot>, server: string, port: int)
    ensures Served(slots, server, port) <==> exists i ::
      && 0 <= i < |slots| && slots[i].state in {Active, Draining}
      && slots[i].config.Some? && slots[i].config.value.server == server && slots[i].config.value.port == port
  {
    if Served(slots, server, port) {
      var i :| 0 <= i < |slots| && slots[i].Serves(server, port);
      assert slots[i].state in {Active, Draining};
    }
    forall i | 0 <= i < |slots| && slots[i].state in {Active, Draining} && slots[i].config.Some?
      && slots[i].config.value.server == server && slots[i].config.value.port == port
      ensures Served(slots, server, port)
    {
      assert slots[i].Serves(server, port);
    }
  }
}
