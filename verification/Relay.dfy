/** What one tunnel does to the pool, from pick to close, and how failing tunnels
    move traffic away from a bad slot. */
module Relay {
  import opened Base
  import opened WanSpec
  import opened Wan
  import opened Router

  /** How far a picked tunnel gets; Unanswered covers a client that cannot be
      hijacked (HTTP) or whose success reply cannot be written (SOCKS). */
  datatype Outcome = DialFailed | Unanswered | Relayed

  datatype Reply = BadRequest | Direct | NoWan | BadGateway | Established | Broken

  /** A tunnel alone leaves its mark on the failure counter of its own slot only. */
  function Marked(slots: seq<Slot>, wan: nat, outcome: Outcome): (r: seq<Slot>)
    requires wan < |slots|
    ensures |r| == |slots|
  {
    match outcome
    case DialFailed => slots[wan := slots[wan].Failed()]
    case Unanswered => slots
    case Relayed => slots[wan := slots[wan].Succeeded()]
  }

  method BeginWAN(pool: WanPool, wan: int)
    requires pool.Valid()
    modifies pool.slots
    ensures pool.Slots() == if 0 <= wan < |pool.slots| then old(pool.Slots())[wan := old(pool.Slots())[wan].Begun()]
      else old(pool.Slots())
  {
    pool.IncConnCount(wan);
  }

  method EndWAN(pool: WanPool, wan: int)
    requires pool.Valid()
    modifies pool.slots
    ensures pool.Slots() == if 0 <= wan < |pool.slots| then old(pool.Slots())[wan := old(pool.Slots())[wan].Ended()]
      else old(pool.Slots())
  {
    pool.DecConnCount(wan);
  }

  function ReplyTo(outcome: Outcome): Reply {
    match outcome
    case DialFailed => BadGateway
    case Unanswered => Broken
    case Relayed => Established
  }

  /** From begin to end on the picked slot. */
  method ServeOn(pool: WanPool, wan: nat, outcome: Outcome) returns (reply: Reply)
    requires pool.Valid() && wan < |pool.slots|
    modifies pool.slots
    ensures pool.Slots() == Marked(old(pool.Slots()), wan, outcome) && reply == ReplyTo(outcome)
  {
    ghost var was := pool.Slots();
    BeginWAN(pool, wan);
    match outcome {
      case DialFailed =>
        pool.RecordFailure(wan);
        reply := BadGateway;
      case Unanswered =>
        reply := Broken;
      case Relayed =>
        pool.RecordSuccess(wan);
        reply := Established;
    }
    EndWAN(pool, wan);
    assert pool.Slots() == was[wan := pool.Slots()[wan]];
  }

  /** Serves one tunnel with nothing else running: a direct target or an empty one
      leaves the pool alone, and the connection counters end as they began. */
  method HandleTunnel(pool: WanPool, router: Option<Router>, target: string, threshold: int, outcome: Outcome)
    returns (wan: int, reply: Reply)
    requires pool.Valid()
    modifies pool.slots
    ensures reply == BadRequest <==> target == ""
    ensures reply == Direct <==> target != "" && Decide(router, target) == RouteDirect
    ensures reply in {BadRequest, Direct} ==> pool.Slots() == old(pool.Slots())
    ensures reply !in {BadRequest, Direct} ==>
      && LeastLoaded(old(pool.Slots()), threshold, wan)
      && (wan == -1 <==> reply == NoWan)
      && (wan == -1 ==> pool.Slots() == old(pool.Slots()))
      && (wan != -1 ==> 0 <= wan < |pool.slots| && pool.Slots() == Marked(old(pool.Slots()), wan, outcome))
      && (wan != -1 ==> reply == ReplyTo(outcome))
    ensures wan != -1 ==>
      && 0 <= wan < |pool.slots|
      && (outcome.DialFailed? ==> reply == BadGateway && pool.Slots()[wan].fails == old(pool.Slots())[wan].fails + 1)
      && (outcome.Unanswered? ==> reply == Broken && pool.Slots()[wan].fails == old(pool.Slots())[wan].fails)
      && (outcome.Relayed? ==> reply == Established && pool.Slots()[wan].fails == 0)
      && pool.Slots() == old(pool.Slots())[wan := old(pool.Slots())[wan].(fails := pool.Slots()[wan].fails)]
  {
    if target == "" { return -1, BadRequest; }
    if Decide(router, target) == RouteDirect { return -1, Direct; }
    wan := pool.GetLeastLoaded(threshold);
    if wan < 0 { return -1, NoWan; }
    reply := ServeOn(pool, wan, outcome);
  }

  // ----- failing over -----

  /** Failures the routable slots can still take before none is routable. */
  function Patience(slots: seq<Slot>, threshold: int): (r: nat) {
    if slots == [] then 0
    else
      var last := slots[|slots| - 1];
      Patience(slots[..|slots| - 1], threshold) + (if last.Routable(threshold) then threshold - last.fails else 0)
  }

  /** Patience runs out exactly when no slot is routable. */
  lemma {:induction false} PatienceIsGone(slots: seq<Slot>, threshold: int)
    ensures Patience(slots, threshold) == 0 <==> !exists i :: 0 <= i < |slots| && slots[i].Routable(threshold)
  {
    if slots != [] {
      var front := slots[..|slots| - 1];
      PatienceIsGone(front, threshold);
      assert forall i :: 0 <= i < |front| ==> front[i] == slots[i];
    }
  }

  lemma {:induction false} FailureCosts(slots: seq<Slot>, threshold: int, i: nat)
    requires i < |slots| && slots[i].Routable(threshold)
    ensures Patience(slots[i := slots[i].Failed()], threshold) == Patience(slots, threshold) - 1
  {
    var after := slots[i := slots[i].Failed()];
    var n := |slots| - 1;
    if i < n {
      FailureCosts(slots[..n], threshold, i);
      assert after[..n] == slots[..n][i := slots[i].Failed()];
    } else {
      assert after[..n] == slots[..n];
    }
  }

  /** Tunnels that all fail to dial, one after the other; `picks` are their slots. */
  ghost predicate FailingRun(before: seq<Slot>, threshold: int, picks: seq<nat>, after: seq<Slot>)
    decreases |picks|
  {
    if picks == [] then after == before
    else
      && LeastLoaded(before, threshold, picks[0])
      && picks[0] < |before|
      && FailingRun(Marked(before, picks[0], DialFailed), threshold, picks[1..], after)
  }

  /** Failing over takes exactly the patience of the pool: every failing tunnel uses
      up one unit, and some slot stays routable as long as any is left. */
  lemma {:induction false} FailoverIsExact(before: seq<Slot>, threshold: int, picks: seq<nat>, after: seq<Slot>)
    requires FailingRun(before, threshold, picks, after) && |picks| <= Patience(before, threshold)
    ensures Patience(after, threshold) == Patience(before, threshold) - |picks|
    ensures |picks| < Patience(before, threshold) <==> exists i :: 0 <= i < |after| && after[i].Routable(threshold)
    decreases |picks|
  {
    PatienceIsGone(after, threshold);
    if picks != [] {
      PatienceIsGone(before, threshold);
      FailureCosts(before, threshold, picks[0]);
      FailoverIsExact(Marked(before, picks[0], DialFailed), threshold, picks[1..], after);
    }
  }

  /** One relayed tunnel makes its slot routable again if its process is held. */
  lemma RelayHeals(slots: seq<Slot>, threshold: int, wan: nat)
    requires LeastLoaded(slots, threshold, wan) && threshold > 0
    ensures wan < |slots| && Marked(slots, wan, Relayed)[wan].Routable(threshold) == slots[wan].cmd.Some?
  {
    if exists i :: 0 <= i < |slots| && slots[i].Routable(threshold) {
      assert LeastOf(slots, RoutableAt(threshold), wan);
    } else {
      assert LeastOf(slots, InState({Active, Draining}), wan);
    }
  }
}
