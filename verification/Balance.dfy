/** Least-connections balancing while handlers race between picking a slot and
    counting themselves on it. */
module Balance {
  import opened WanSpec

  /** `pending` lists the slots picked by handlers that have not begun yet. */
  datatype State = State(slots: seq<Slot>, pending: seq<nat>)

  /** `Change` stands for everything else that happens to a slot: failures, probes,
      drain marks. */
  datatype Action = Pick(i: nat) | Begin(k: nat) | Change(at: nat, to: Slot)

  function Next(s: State, a: Action): State {
    match a
    case Pick(i) => s.(pending := s.pending + [i])
    case Begin(k) =>
      if k < |s.pending| && s.pending[k] < |s.slots|
      then State(s.slots[s.pending[k] := s.slots[s.pending[k]].Begun()], s.pending[..k] + s.pending[k + 1..])
      else s
    case Change(i, x) => if i < |s.slots| then s.(slots := s.slots[i := x]) else s
  }

  /** Same connections, and as routable and as serving as before. */
  ghost predicate Equivalent(a: Slot, b: Slot, threshold: int) {
    a.conns == b.conns && a.Routable(threshold) == b.Routable(threshold) && a.Serving() == b.Serving()
  }

  /** A pick is the balancer's answer and leaves at most `racing` handlers pending;
      other changes keep the routable set. */
  ghost predicate Legal(s: State, threshold: int, racing: nat, a: Action) {
    match a
    case Pick(i) => LeastLoaded(s.slots, threshold, i) && |s.pending| < racing
    case Begin(k) => k < |s.pending|
    case Change(i, x) => i < |s.slots| && Equivalent(s.slots[i], x, threshold)
  }

  ghost function Run(s: State, actions: seq<Action>): State {
    if actions == [] then s else Next(Run(s, actions[..|actions| - 1]), actions[|actions| - 1])
  }

  ghost predicate LegalRun(s: State, threshold: int, racing: nat, actions: seq<Action>) {
    actions != [] ==>
      && LegalRun(s, threshold, racing, actions[..|actions| - 1])
      && Legal(Run(s, actions[..|actions| - 1]), threshold, racing, actions[|actions| - 1])
  }

  /** The slots connections go to: the routable ones, or all serving ones if none is. */
  ghost predicate Eligible(slots: seq<Slot>, threshold: int, i: nat)
    requires i < |slots|
  {
    if exists j :: 0 <= j < |slots| && slots[j].Routable(threshold) then slots[i].Routable(threshold)
      else slots[i].Serving()
  }

  function Waiting(pending: seq<nat>, i: nat): nat {
    multiset(pending)[i]
  }

  /** No eligible slot, counting the handlers on their way to it, exceeds another by
      more than `bound`. */
  ghost predicate Within(s: State, threshold: int, bound: int) {
    forall i, j ::
      0 <= i < |s.slots| && 0 <= j < |s.slots| && Eligible(s.slots, threshold, i) && Eligible(s.slots, threshold, j) ==>
      s.slots[i].conns + Waiting(s.pending, i) <= s.slots[j].conns + bound
  }

  /** Counting a connection changes no one's eligibility. */
  lemma BegunKeepsEligible(slots: seq<Slot>, threshold: int, k: nat)
    requires k < |slots|
    ensures forall i :: 0 <= i < |slots| ==>
      (Eligible(slots[k := slots[k].Begun()], threshold, i) <==> Eligible(slots, threshold, i))
  {
    SameEligible(slots, slots[k := slots[k].Begun()], threshold);
  }

  /** The balancer returns an eligible slot with the fewest connections. */
  lemma PickIsMinimal(slots: seq<Slot>, threshold: int, r: nat)
    requires LeastLoaded(slots, threshold, r)
    ensures r < |slots| && Eligible(slots, threshold, r)
    ensures forall i :: 0 <= i < |slots| && Eligible(slots, threshold, i) ==> slots[r].conns <= slots[i].conns
    ensures forall i :: 0 <= i < r && Eligible(slots, threshold, i) ==> slots[r].conns < slots[i].conns
  {
    var p := if exists j :: 0 <= j < |slots| && slots[j].Routable(threshold) then RoutableAt(threshold)
      else InState({Active, Draining});
    assert LeastOf(slots, p, r);
    assert forall i :: 0 <= i < |slots| ==> (Eligible(slots, threshold, i) <==> p(slots[i]));
  }

  /** The balancer's answer is unique. */
  lemma PickIsUnique(slots: seq<Slot>, threshold: int, r1: int, r2: int)
    requires LeastLoaded(slots, threshold, r1) && LeastLoaded(slots, threshold, r2)
    ensures r1 == r2
  {
  }

  // ----- draining slots -----

  /** The same slots with the given connection counts. */
  function WithConns(slots: seq<Slot>, counts: seq<int>): (r: seq<Slot>)
    requires |counts| == |slots|
    ensures |r| == |slots|
    ensures forall i :: 0 <= i < |slots| ==> r[i] == slots[i].(conns := counts[i])
  {
    seq(|slots|, i requires 0 <= i < |slots| => slots[i].(conns := counts[i]))
  }

  /** Eligibility looks only at routability and at serving. */
  lemma SameEligible(a: seq<Slot>, b: seq<Slot>, threshold: int)
    requires |a| == |b|
    requires forall i :: 0 <= i < |a| ==>
      a[i].Routable(threshold) == b[i].Routable(threshold) && a[i].Serving() == b[i].Serving()
    ensures forall i :: 0 <= i < |a| ==> (Eligible(a, threshold, i) <==> Eligible(b, threshold, i))
  {
    assert (exists j :: 0 <= j < |a| && a[j].Routable(threshold)) <==>
      (exists j :: 0 <= j < |b| && b[j].Routable(threshold));
  }

  /** `PickIsMinimal` determines the pick. */
  lemma MinimalIsPicked(slots: seq<Slot>, threshold: int, r: nat)
    requires r < |slots| && Eligible(slots, threshold, r)
    requires forall i :: 0 <= i < |slots| && Eligible(slots, threshold, i) ==>
      slots[r].conns <= slots[i].conns && (i < r ==> slots[r].conns < slots[i].conns)
    ensures LeastLoaded(slots, threshold, r)
  {
    var p := if exists j :: 0 <= j < |slots| && slots[j].Routable(threshold) then RoutableAt(threshold)
      else InState({Active, Draining});
    assert forall i :: 0 <= i < |slots| ==> (Eligible(slots, threshold, i) <==> p(slots[i]));
    assert LeastOf(slots, p, r);
  }

  /** An eligible draining slot is picked as soon as it has the fewest connections. */
  lemma DrainingIsPicked(slots: seq<Slot>, threshold: int, i: nat)
    requires i < |slots| && slots[i].state.Draining? && Eligible(slots, threshold, i)
    requires forall j :: 0 <= j < |slots| && j != i && Eligible(slots, threshold, j) ==> slots[i].conns < slots[j].conns
    ensures LeastLoaded(slots, threshold, i)
  {
    MinimalIsPicked(slots, threshold, i);
  }

  /** Of two routable slots a less loaded draining one is preferred to an active one. */
  lemma DrainingBeatsActive(a: Slot, d: Slot, threshold: int)
    requires a.state.Active? && d.state.Draining? && a.Routable(threshold) && d.Routable(threshold) && d.conns < a.conns
    ensures LeastLoaded([a, d], threshold, 1)
  {
    assert [a, d][1].Routable(threshold);
    DrainingIsPicked([a, d], threshold, 1);
  }

  /** For a fixed pool no connection goes to a draining slot, whatever the counts,
      exactly when no draining slot is eligible. */
  lemma NeverDrainingIff(slots: seq<Slot>, threshold: int)
    ensures (forall counts: seq<int>, r: nat | |counts| == |slots| &&
      LeastLoaded(WithConns(slots, counts), threshold, r) :: r < |slots| && !slots[r].state.Draining?)
      <==> forall i :: 0 <= i < |slots| && slots[i].state.Draining? ==> !Eligible(slots, threshold, i)
  {
    forall counts: seq<int>, r: nat | |counts| == |slots| && LeastLoaded(WithConns(slots, counts), threshold, r)
      ensures r < |slots| && Eligible(slots, threshold, r)
    {
      PickIsMinimal(WithConns(slots, counts), threshold, r);
      SameEligible(slots, WithConns(slots, counts), threshold);
    }
    forall i | 0 <= i < |slots| && slots[i].state.Draining? && Eligible(slots, threshold, i)
      ensures exists counts: seq<int> :: |counts| == |slots| && LeastLoaded(WithConns(slots, counts), threshold, i)
    {
      var counts := seq(|slots|, j => if j == i then 0 else 1);
      SameEligible(slots, WithConns(slots, counts), threshold);
      DrainingIsPicked(WithConns(slots, counts), threshold, i);
    }
  }

  /** Marking an active slot draining changes no pick at all. */
  lemma DrainingChangesNoPick(slots: seq<Slot>, threshold: int, i: nat, now: int, r: int)
    requires i < |slots|
    ensures LeastLoaded(slots[i := slots[i].Drained(now)], threshold, r) <==> LeastLoaded(slots, threshold, r)
  {
    var after := slots[i := slots[i].Drained(now)];
    assert forall j :: 0 <= j < |slots| ==> Equivalent(slots[j], after[j], threshold);
    SameEligible(slots, after, threshold);
    assert (exists j :: 0 <= j < |slots| && slots[j].Routable(threshold)) <==>
      (exists j :: 0 <= j < |after| && after[j].Routable(threshold));
  }

  // ----- racing handlers -----

  lemma PickKeepsWithin(s: State, threshold: int, bound: int, i: nat)
    requires Within(s, threshold, bound) && LeastLoaded(s.slots, threshold, i) && |s.pending| < bound
    ensures Within(Next(s, Pick(i)), threshold, bound)
  {
    PickIsMinimal(s.slots, threshold, i);
    var s' := Next(s, Pick(i));
    assert multiset(s'.pending) == multiset(s.pending) + multiset{i};
    assert Waiting(s.pending, i) <= |s.pending| by { CountAtMostSize(s.pending, i); }
  }

  lemma CountAtMostSize(pending: seq<nat>, i: nat)
    ensures multiset(pending)[i] <= |pending|
  {
    assert |multiset(pending)| == |pending|;
    assert multiset(pending)[i := 0] + multiset{}[i := multiset(pending)[i]] == multiset(pending);
  }

  lemma BeginKeepsWithin(s: State, threshold: int, bound: int, k: nat)
    requires Within(s, threshold, bound) && k < |s.pending|
    ensures Within(Next(s, Begin(k)), threshold, bound)
  {
    if s.pending[k] < |s.slots| {
      var s' := Next(s, Begin(k));
      var b := s.pending[k];
      BegunKeepsEligible(s.slots, threshold, b);
      assert s.pending == s.pending[..k] + [b] + s.pending[k + 1..];
      assert multiset(s.pending) == multiset(s'.pending) + multiset{b};
      forall i, j | 0 <= i < |s'.slots| && 0 <= j < |s'.slots| && Eligible(s'.slots, threshold, i) &&
        Eligible(s'.slots, threshold, j)
        ensures s'.slots[i].conns + Waiting(s'.pending, i) <= s'.slots[j].conns + bound
      {
        assert s.slots[i].conns + Waiting(s.pending, i) <= s.slots[j].conns + bound;
      }
    }
  }

  lemma ChangeKeepsWithin(s: State, threshold: int, bound: int, i: nat, x: Slot)
    requires Within(s, threshold, bound) && i < |s.slots| && Equivalent(s.slots[i], x, threshold)
    ensures Within(Next(s, Change(i, x)), threshold, bound)
  {
    var after := s.slots[i := x];
    SameEligible(s.slots, after, threshold);
    assert forall j :: 0 <= j < |s.slots| ==> after[j].conns == s.slots[j].conns;
  }

  lemma {:induction false} RunKeepsWithin(s: State, threshold: int, racing: nat, bound: int, actions: seq<Action>)
    requires LegalRun(s, threshold, racing, actions) && Within(s, threshold, bound) && racing <= bound
    ensures Within(Run(s, actions), threshold, bound)
    decreases |actions|
  {
    if actions != [] {
      var before := Run(s, actions[..|actions| - 1]);
      RunKeepsWithin(s, threshold, racing, bound, actions[..|actions| - 1]);
      match actions[|actions| - 1]
      case Pick(i) => PickKeepsWithin(before, threshold, bound, i);
      case Begin(k) => BeginKeepsWithin(before, threshold, bound, k);
      case Change(i, x) => ChangeKeepsWithin(before, threshold, bound, i, x);
    }
  }

  /** While no connection closes and eligibility stays as it is, the gap between the
      fullest and the emptiest eligible slot never exceeds the larger of the initial
      gap and the number of handlers racing between pick and begin. */
  lemma GapStaysBounded(slots: seq<Slot>, threshold: int, racing: nat, gap: nat, actions: seq<Action>)
    requires forall i, j ::
      0 <= i < |slots| && 0 <= j < |slots| && Eligible(slots, threshold, i) && Eligible(slots, threshold, j) ==>
      slots[i].conns <= slots[j].conns + gap
    requires LegalRun(State(slots, []), threshold, racing, actions)
    ensures var after := Run(State(slots, []), actions).slots; var bound := if gap > racing then gap else racing;
      && |after| == |slots|
      && forall i, j ::
        0 <= i < |slots| && 0 <= j < |slots| && Eligible(slots, threshold, i) && Eligible(slots, threshold, j) ==>
        after[i].conns <= after[j].conns + bound
  {
    var s, bound := State(slots, []), if gap > racing then gap else racing;
    RunKeepsWithin(s, threshold, racing, bound, actions);
    EligibilityIsFixed(s, threshold, racing, actions);
  }

  lemma {:induction false} EligibilityIsFixed(s: State, threshold: int, racing: nat, actions: seq<Action>)
    requires LegalRun(s, threshold, racing, actions)
    ensures |Run(s, actions).slots| == |s.slots|
    ensures forall i :: 0 <= i < |s.slots| ==>
      (Eligible(Run(s, actions).slots, threshold, i) <==> Eligible(s.slots, threshold, i))
    decreases |actions|
  {
    if actions != [] {
      var before := Run(s, actions[..|actions| - 1]);
      EligibilityIsFixed(s, threshold, racing, actions[..|actions| - 1]);
      var a := actions[|actions| - 1];
      if a.Begin? && before.pending[a.k] < |before.slots| {
        BegunKeepsEligible(before.slots, threshold, before.pending[a.k]);
      } else if a.Change? {
        SameEligible(before.slots, before.slots[a.at := a.to], threshold);
      }
    }
  }

  function Repeat(a: Action, n: nat): seq<Action> {
    if n == 0 then [] else Repeat(a, n - 1) + [a]
  }

  function Zeros(n: nat): (r: seq<nat>)
    ensures |r| == n && forall i :: 0 <= i < n ==> r[i] == 0
  {
    seq(n, _ => 0)
  }

  /** The bound is reached: from two idle slots, `racing` handlers that all pick
      before any begins end on the same slot. */
  lemma BoundIsReached(a: Slot, b: Slot, threshold: int, racing: nat)
    requires a.Routable(threshold) && b.Routable(threshold) && a.conns == b.conns
    ensures var run := Repeat(Pick(0), racing) + Repeat(Begin(0), racing); var s := State([a, b], []);
      && LegalRun(s, threshold, racing, run)
      && Run(s, run) == State([a.(conns := b.conns + racing), b], [])
  {
    BeginsLand(a, b, threshold, racing, racing);
  }

  lemma RunSnoc(s: State, threshold: int, racing: nat, front: seq<Action>, last: Action)
    ensures Run(s, front + [last]) == Next(Run(s, front), last)
    ensures LegalRun(s, threshold, racing, front + [last]) <==>
      LegalRun(s, threshold, racing, front) && Legal(Run(s, front), threshold, racing, last)
  {
    assert (front + [last])[..|front|] == front;
  }

  lemma {:induction false} PicksPile(a: Slot, b: Slot, threshold: int, racing: nat, n: nat)
    requires a.Routable(threshold) && b.Routable(threshold) && a.conns == b.conns && n <= racing
    ensures LegalRun(State([a, b], []), threshold, racing, Repeat(Pick(0), n))
    ensures Run(State([a, b], []), Repeat(Pick(0), n)) == State([a, b], Zeros(n))
  {
    if n > 0 {
      PicksPile(a, b, threshold, racing, n - 1);
      RunSnoc(State([a, b], []), threshold, racing, Repeat(Pick(0), n - 1), Pick(0));
      PickOne(a, b, threshold);
      assert Zeros(n - 1) + [0] == Zeros(n);
    }
  }

  lemma PickOne(a: Slot, b: Slot, threshold: int)
    requires a.Routable(threshold) && b.Routable(threshold) && a.conns == b.conns
    ensures LeastLoaded([a, b], threshold, 0)
  {
    assert [a, b][0].Routable(threshold);
  }

  lemma {:induction false} BeginsLand(a: Slot, b: Slot, threshold: int, racing: nat, n: nat)
    requires a.Routable(threshold) && b.Routable(threshold) && a.conns == b.conns && n <= racing
    ensures LegalRun(State([a, b], []), threshold, racing, Repeat(Pick(0), racing) + Repeat(Begin(0), n))
    ensures Run(State([a, b], []), Repeat(Pick(0), racing) + Repeat(Begin(0), n)) ==
      State([a.(conns := a.conns + n), b], Zeros(racing - n))
  {
    var picks := Repeat(Pick(0), racing);
    if n == 0 {
      PicksPile(a, b, threshold, racing, racing);
      assert picks + [] == picks;
    } else {
      BeginsLand(a, b, threshold, racing, n - 1);
      BeginsStep(a, b, threshold, racing, n, picks + Repeat(Begin(0), n - 1));
      assert picks + Repeat(Begin(0), n) == picks + Repeat(Begin(0), n - 1) + [Begin(0)];
    }
  }

  lemma BeginsStep(a: Slot, b: Slot, threshold: int, racing: nat, n: nat, front: seq<Action>)
    requires 0 < n <= racing && LegalRun(State([a, b], []), threshold, racing, front)
    requires Run(State([a, b], []), front) == State([a.(conns := a.conns + n - 1), b], Zeros(racing - n + 1))
    ensures LegalRun(State([a, b], []), threshold, racing, front + [Begin(0)])
    ensures Run(State([a, b], []), front + [Begin(0)]) == State([a.(conns := a.conns + n), b], Zeros(racing - n))
  {
    RunSnoc(State([a, b], []), threshold, racing, front, Begin(0));
    BeginOne(a, b, n, threshold, racing, racing - n);
  }

  lemma BeginOne(a: Slot, b: Slot, n: int, threshold: int, racing: nat, m: nat)
    ensures Next(State([a.(conns := a.conns + n - 1), b], Zeros(m + 1)), Begin(0)) ==
      State([a.(conns := a.conns + n), b], Zeros(m))
    ensures Legal(State([a.(conns := a.conns + n - 1), b], Zeros(m + 1)), threshold, racing, Begin(0))
  {
    var x := a.(conns := a.conns + n - 1);
    assert Zeros(m + 1)[..0] + Zeros(m + 1)[1..] == Zeros(m);
    assert [x, b][0 := x.Begun()] == [x.Begun(), b];
  }
}
