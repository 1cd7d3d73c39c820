/** The choice of a replacement among the results of one cycle: fastest first,
    stability as a tie-break within a small tolerance. */
module Chooser {
  import opened Base

  const EPSILON := 0.001

  predicate Qualifies(r: TestResult, minimumSpeed: real, alreadyActive: ProxyConfig -> bool) {
    !r.failed && r.speed >= minimumSpeed && !alreadyActive(r.config)
  }

  /** `r` replaces the best result so far. */
  predicate Displaces(r: TestResult, best: TestResult) {
    r.speed > best.speed + EPSILON || (r.speed > best.speed - EPSILON && r.stability < best.stability)
  }

  /** Index of the chosen result, or -1. */
  function Pick(rs: seq<TestResult>, min: real, active: ProxyConfig -> bool): (k: int)
    ensures k == -1 || (0 <= k < |rs| && Qualifies(rs[k], min, active))
  {
    if rs == [] then -1
    else
      var n := |rs| - 1;
      var b := Pick(rs[..n], min, active);
      if !Qualifies(rs[n], min, active) then b
      else if b == -1 || Displaces(rs[n], rs[b]) then n
      else b
  }

  method BestNewCandidate(results: seq<TestResult>, minimumSpeed: real, alreadyActive: ProxyConfig -> bool)
    returns (best: Option<TestResult>)
    ensures var k := Pick(results, minimumSpeed, alreadyActive);
      best == if k == -1 then None else Some(results[k])
    ensures best.None? <==> forall i :: 0 <= i < |results| ==>
      results[i].failed || results[i].speed < minimumSpeed || alreadyActive(results[i].config)
    ensures best.Some? ==> best.value in results
  {
    best := None;
    for i := 0 to |results|
      invariant var k := Pick(results[..i], minimumSpeed, alreadyActive);
        best == if k == -1 then None else Some(results[k])
    {
      var r := results[i];
      assert results[..i + 1][..i] == results[..i];
      if r.failed || r.speed < minimumSpeed || alreadyActive(r.config) { continue; }
      if best.None? || r.speed > best.value.speed + EPSILON {
        best := Some(r);
      } else if r.speed > best.value.speed - EPSILON && r.stability < best.value.stability {
        best := Some(r);
      }
    }
    assert results[..|results|] == results;
    PickNearFastest(results, minimumSpeed, alreadyActive);
  }

  function Qualifying(rs: seq<TestResult>, min: real, active: ProxyConfig -> bool): (n: nat)
    ensures n == 0 <==> forall i :: 0 <= i < |rs| ==> !Qualifies(rs[i], min, active)
  {
    if rs == [] then 0
    else
      assert forall i :: 0 <= i < |rs| - 1 ==> rs[..|rs| - 1][i] == rs[i];
      Qualifying(rs[..|rs| - 1], min, active) + if Qualifies(rs[|rs| - 1], min, active) then 1 else 0
  }

  /** With n qualifying results the choice loses at most n - 1 tolerances. */
  lemma {:induction false} PickNearFastest(rs: seq<TestResult>, min: real, active: ProxyConfig -> bool)
    ensures Pick(rs, min, active) == -1 <==> Qualifying(rs, min, active) == 0
    ensures forall i :: 0 <= i < |rs| && Qualifies(rs[i], min, active) ==>
      rs[i].speed <= rs[Pick(rs, min, active)].speed + 0.001 * (Qualifying(rs, min, active) - 1) as real
  {
    if rs != [] {
      var n := |rs| - 1;
      PickNearFastest(rs[..n], min, active);
      forall i | 0 <= i < |rs| && Qualifies(rs[i], min, active)
        ensures rs[i].speed <= rs[Pick(rs, min, active)].speed + EPSILON * (Qualifying(rs, min, active) - 1) as real
      {
        if i < n { assert rs[..n][i] == rs[i]; }
      }
    }
  }

  /** `top` bounds all qualifying speeds, and no other one comes within the tolerance. */
  ghost predicate Isolated(rs: seq<TestResult>, min: real, active: ProxyConfig -> bool, top: real) {
    forall i :: 0 <= i < |rs| && Qualifies(rs[i], min, active) ==> rs[i].speed == top || rs[i].speed < top - EPSILON
  }

  /** `k` is the fastest, then most stable, then earliest qualifying result. */
  ghost predicate LexBest(rs: seq<TestResult>, min: real, active: ProxyConfig -> bool, k: int) {
    && 0 <= k < |rs| && Qualifies(rs[k], min, active)
    && forall i :: 0 <= i < |rs| && Qualifies(rs[i], min, active) ==>
         || rs[i].speed < rs[k].speed
         || (rs[i].speed == rs[k].speed &&
           (rs[i].stability > rs[k].stability || (rs[i].stability == rs[k].stability && k <= i)))
  }

  /** The choice is the exact lexicographic optimum when the top speed is isolated,
      in particular when any two qualifying speeds are equal or further apart. */
  lemma {:induction false} PickIsLexBest(rs: seq<TestResult>, min: real, active: ProxyConfig -> bool, top: real)
    requires Isolated(rs, min, active, top)
    ensures (exists i :: 0 <= i < |rs| && Qualifies(rs[i], min, active) && rs[i].speed == top) ==>
      LexBest(rs, min, active, Pick(rs, min, active))
    ensures Pick(rs, min, active) != -1 && rs[Pick(rs, min, active)].speed == top ==>
      LexBest(rs, min, active, Pick(rs, min, active))
  {
    if rs != [] {
      var n := |rs| - 1;
      var front := rs[..n];
      assert forall i :: 0 <= i < n ==> front[i] == rs[i];
      PickIsLexBest(front, min, active, top);
      var b := Pick(front, min, active);
      if exists i :: 0 <= i < n && Qualifies(rs[i], min, active) && rs[i].speed == top {
        var i :| 0 <= i < n && Qualifies(rs[i], min, active) && rs[i].speed == top;
        assert front[i].speed == top;
        assert LexBest(front, min, active, b);
      }
    }
  }

  lemma {:induction false} FastestExists(rs: seq<TestResult>, min: real, active: ProxyConfig -> bool)
    returns (top: real)
    ensures Pick(rs, min, active) != -1 ==>
      && (exists i :: 0 <= i < |rs| && Qualifies(rs[i], min, active) && rs[i].speed == top)
      && (forall i :: 0 <= i < |rs| && Qualifies(rs[i], min, active) ==> rs[i].speed <= top)
    ensures Pick(rs, min, active) == -1 ==> forall i :: 0 <= i < |rs| ==> !Qualifies(rs[i], min, active)
  {
    top := 0.0;
    if rs != [] {
      var n := |rs| - 1;
      top := FastestExists(rs[..n], min, active);
      assert forall i :: 0 <= i < n ==> rs[..n][i] == rs[i];
      if Qualifies(rs[n], min, active) && (Pick(rs[..n], min, active) == -1 || rs[n].speed > top) {
        top := rs[n].speed;
      }
    }
  }

  /** When any two qualifying speeds are equal or further apart than the tolerance,
      the choice is the exact lexicographic optimum. */
  lemma SeparatedIsLexBest(rs: seq<TestResult>, min: real, active: ProxyConfig -> bool)
    requires forall i, j ::
      0 <= i < |rs| && 0 <= j < |rs| && Qualifies(rs[i], min, active) && Qualifies(rs[j], min, active) ==>
      rs[i].speed == rs[j].speed || rs[i].speed < rs[j].speed - EPSILON || rs[j].speed < rs[i].speed - EPSILON
    ensures Pick(rs, min, active) == -1 <==> forall i :: 0 <= i < |rs| ==> !Qualifies(rs[i], min, active)
    ensures Pick(rs, min, active) != -1 ==> LexBest(rs, min, active, Pick(rs, min, active))
  {
    var top := FastestExists(rs, min, active);
    if Pick(rs, min, active) != -1 {
      PickIsLexBest(rs, min, active, top);
    }
  }

  /** Without isolation a slower but more stable result can win over a faster one,
      and chained ties can lose more than one tolerance. */
  lemma SlowerCanWin(a: ProxyConfig, b: ProxyConfig, c: ProxyConfig)
    ensures
      var rs := [TestResult(a, 10.0018, 2, false), TestResult(b, 10.0009, 1, false), TestResult(c, 10.0, 0, false)];
      Pick(rs, 5.0, _ => false) == 2 && rs[0].speed > rs[2].speed + EPSILON
  {
    var rs := [TestResult(a, 10.0018, 2, false), TestResult(b, 10.0009, 1, false), TestResult(c, 10.0, 0, false)];
    assert rs[..2] == [rs[0], rs[1]] && rs[..2][..1] == [rs[0]] && rs[..2][..1][..0] == [];
    assert Pick(rs[..2][..1], 5.0, _ => false) == 0;
    assert Pick(rs[..2], 5.0, _ => false) == 1;
  }

  // ----- when the fastest always wins -----

  function Strip(r: TestResult): TestResult {
    r.(stability := 0)
  }

  function Stripped(rs: seq<TestResult>): (r: seq<TestResult>)
    ensures |r| == |rs|
    ensures forall i :: 0 <= i < |rs| ==> r[i] == Strip(rs[i])
  {
    seq(|rs|, i requires 0 <= i < |rs| => Strip(rs[i]))
  }

  /** The same tested configs and speeds in any order, with any stability scores. */
  ghost predicate Variant(rs: seq<TestResult>, ss: seq<TestResult>) {
    multiset(Stripped(ss)) == multiset(Stripped(rs))
  }

  /** `top` is the highest qualifying speed. */
  ghost predicate TopSpeed(rs: seq<TestResult>, min: real, active: ProxyConfig -> bool, top: real) {
    && (exists i :: 0 <= i < |rs| && Qualifies(rs[i], min, active) && rs[i].speed == top)
    && forall i :: 0 <= i < |rs| && Qualifies(rs[i], min, active) ==> rs[i].speed <= top
  }

  lemma VariantHas(rs: seq<TestResult>, ss: seq<TestResult>, i: nat) returns (j: nat)
    requires Variant(rs, ss) && i < |rs|
    ensures j < |ss| && Strip(ss[j]) == Strip(rs[i])
  {
    assert Stripped(rs)[i] in multiset(Stripped(rs));
    assert Stripped(rs)[i] in Stripped(ss);
    j :| 0 <= j < |ss| && Stripped(ss)[j] == Stripped(rs)[i];
  }

  lemma VariantKeepsTop(rs: seq<TestResult>, ss: seq<TestResult>, min: real, active: ProxyConfig -> bool, top: real)
    requires Variant(rs, ss) && TopSpeed(rs, min, active, top)
    ensures TopSpeed(ss, min, active, top)
    ensures Isolated(rs, min, active, top) ==> Isolated(ss, min, active, top)
  {
    var i :| 0 <= i < |rs| && Qualifies(rs[i], min, active) && rs[i].speed == top;
    var j := VariantHas(rs, ss, i);
    assert Qualifies(ss[j], min, active) && ss[j].speed == top;
    forall k | 0 <= k < |ss| && Qualifies(ss[k], min, active)
      ensures ss[k].speed <= top &&
        (Isolated(rs, min, active, top) ==> ss[k].speed == top || ss[k].speed < top - EPSILON)
    {
      var m := VariantHas(ss, rs, k);
      assert Qualifies(rs[m], min, active);
    }
  }

  /** A first result that nobody beats by more than the tolerance or in stability stays. */
  lemma {:induction false} FirstStays(rs: seq<TestResult>, min: real, active: ProxyConfig -> bool)
    requires rs != [] && Qualifies(rs[0], min, active)
    requires forall i :: 0 <= i < |rs| && Qualifies(rs[i], min, active) ==>
      rs[i].speed <= rs[0].speed + EPSILON && rs[i].stability >= rs[0].stability
    ensures Pick(rs, min, active) == 0
  {
    if |rs| > 1 {
      FirstStays(rs[..|rs| - 1], min, active);
    }
  }

  /** `rs[i]` moved to the front and all scores equal. */
  lemma MovedToFront(rs: seq<TestResult>, i: nat) returns (ss: seq<TestResult>)
    requires i < |rs|
    ensures ss != [] && ss[0] == Strip(rs[i]) && Variant(rs, ss)
    ensures forall k :: 0 <= k < |ss| ==> ss[k].stability == 0
  {
    var flat := Stripped(rs);
    ss := [flat[i]] + flat[..i] + flat[i + 1..];
    assert flat == flat[..i] + [flat[i]] + flat[i + 1..];
    assert Stripped(ss) == ss;
  }

  /** Among any number of results, a fastest one wins in every order and for all
      stability scores exactly when no slower qualifying one comes within the
      tolerance of the top speed. */
  lemma FastestWinsIff(rs: seq<TestResult>, min: real, active: ProxyConfig -> bool, top: real)
    requires TopSpeed(rs, min, active, top)
    ensures (forall ss: seq<TestResult> :: Variant(rs, ss) ==>
               Pick(ss, min, active) != -1 && ss[Pick(ss, min, active)].speed == top)
      <==> Isolated(rs, min, active, top)
  {
    if Isolated(rs, min, active, top) {
      forall ss: seq<TestResult> | Variant(rs, ss)
        ensures Pick(ss, min, active) != -1 && ss[Pick(ss, min, active)].speed == top {
        VariantKeepsTop(rs, ss, min, active, top);
        PickIsLexBest(ss, min, active, top);
      }
    } else {
      var i :| 0 <= i < |rs| && Qualifies(rs[i], min, active) && rs[i].speed != top && rs[i].speed >= top - EPSILON;
      var ss := MovedToFront(rs, i);
      VariantKeepsTop(rs, ss, min, active, top);
      FirstStays(ss, min, active);
    }
  }

  /** For two different speeds: the faster wins in either order and for all stability
      scores iff it leads by more than the tolerance. */
  lemma FasterWinsIff(a: ProxyConfig, b: ProxyConfig, fast: real, slow: real, min: real)
    requires min <= slow < fast
    ensures
      (forall s, t ::
         && Pick([TestResult(a, fast, s, false), TestResult(b, slow, t, false)], min, _ => false) == 0
         && Pick([TestResult(b, slow, t, false), TestResult(a, fast, s, false)], min, _ => false) == 1)
      <==> fast > slow + 0.001
  {
    forall s, t ensures
      && (Pick([TestResult(a, fast, s, false), TestResult(b, slow, t, false)], min, _ => false) == 0 <==>
        !(slow > fast - EPSILON && t < s))
      && (Pick([TestResult(b, slow, t, false), TestResult(a, fast, s, false)], min, _ => false) == 1 <==>
        (fast > slow + EPSILON || s < t))
    {
      PickOfTwo(TestResult(a, fast, s, false), TestResult(b, slow, t, false), min);
      PickOfTwo(TestResult(b, slow, t, false), TestResult(a, fast, s, false), min);
    }
    if fast <= slow + EPSILON {
      assert Pick([TestResult(b, slow, 0, false), TestResult(a, fast, 0, false)], min, _ => false) != 1;
    }
  }

  lemma PickOfTwo(x: TestResult, y: TestResult, min: real)
    requires Qualifies(x, min, _ => false) && Qualifies(y, min, _ => false)
    ensures Pick([x, y], min, _ => false) == if Displaces(y, x) then 1 else 0
  {
    assert [x, y][..1] == [x] && [x][..0] == [];
    assert Pick([x], min, _ => false) == 0;
  }

  // ----- the stability score -----

  /** The exit addresses seen in successful probes. */
  function Distinct(ips: seq<string>): set<string> {
    set ip | ip in ips && ip != ""
  }

  /** Churn of the exit address: distinct addresses beyond the first. */
  method StabilityScoreFromIPs(ips: seq<string>) returns (score: int)
    ensures score == if Distinct(ips) == {} then 0 else |Distinct(ips)| - 1
  {
    var seen: set<string> := {};
    for k := 0 to |ips|
      invariant seen == Distinct(ips[..k])
    {
      assert ips[..k + 1] == ips[..k] + [ips[k]];
      if ips[k] != "" { seen := seen + {ips[k]}; }
    }
    assert ips[..|ips|] == ips;
    if |seen| == 0 { return 0; }
    return |seen| - 1;
  }

  /** No churn is recorded exactly when all observed addresses agree. */
  lemma NoChurnIff(ips: seq<string>)
    ensures |Distinct(ips)| <= 1 <==> forall x, y :: x in ips && y in ips && x != "" && y != "" ==> x == y
  {
    if |Distinct(ips)| <= 1 {
      forall x, y | x in ips && y in ips && x != "" && y != "" ensures x == y {
        SubsetSize({x, y}, Distinct(ips));
      }
    }
    if (forall x, y :: x in ips && y in ips && x != "" && y != "" ==> x == y) && Distinct(ips) != {} {
      var x :| x in Distinct(ips);
      assert Distinct(ips) == {x};
    }
  }
}
