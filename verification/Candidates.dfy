/** The bounded pool of tested replacement candidates, and the ranking it shares
    with the sorted result list. */
module Candidates {
  import opened Base

  /** `a` sorts strictly before `b`: successes first, then by falling speed. */
  predicate Before(a: TestResult, b: TestResult) {
    (!a.failed && b.failed) || (a.failed == b.failed && a.speed > b.speed)
  }

  /** What the ranking looks at; results with equal keys may come in any order. */
  function Key(r: TestResult): (bool, real) {
    (r.failed, r.speed)
  }

  function Keys(s: seq<TestResult>): (r: seq<(bool, real)>)
    ensures |r| == |s|
    ensures forall i :: 0 <= i < |s| ==> r[i] == Key(s[i])
  {
    seq(|s|, i requires 0 <= i < |s| => Key(s[i]))
  }

  ghost predicate Ranked(s: seq<TestResult>) {
    forall i, j :: 0 <= i < j < |s| ==> !Before(s[j], s[i])
  }

  ghost predicate RankingOf(s: seq<TestResult>, r: seq<TestResult>) {
    Ranked(r) && multiset(r) == multiset(s)
  }

  function Trim(s: seq<TestResult>, maxLen: nat): seq<TestResult> {
    if |s| > maxLen then s[..maxLen] else s
  }

  /** One `Update`: the pool may become the trim of any ranking of old and new
      entries, since the sort leaves the order of equal keys open. */
  ghost predicate Updated(pool: seq<TestResult>, results: seq<TestResult>, maxLen: nat, pool': seq<TestResult>) {
    exists merged :: RankingOf(pool + results, merged) && pool' == Trim(merged, maxLen)
  }

  /** `pool` is a best choice of at most `maxLen` entries of `all`. */
  ghost predicate IsTop(pool: seq<TestResult>, all: multiset<TestResult>, maxLen: nat) {
    && |pool| == (if |all| > maxLen then maxLen else |all|)
    && multiset(pool) <= all
    && forall x, y :: x in all - multiset(pool) && y in pool ==> !Before(x, y)
  }

  /** The first entry that neither failed nor is excluded. */
  function FirstEligible(pool: seq<TestResult>, excluded: set<string>): (r: Option<TestResult>)
    ensures r.Some? ==> r.value in pool && !r.value.failed && r.value.config.raw !in excluded
    ensures r.None? ==> forall x :: x in pool ==> x.failed || x.config.raw in excluded
  {
    if pool == [] then None
    else if !pool[0].failed && pool[0].config.raw !in excluded then Some(pool[0])
    else FirstEligible(pool[1..], excluded)
  }

  function Insert(x: TestResult, r: seq<TestResult>): seq<TestResult> {
    if r == [] then [x]
    else if Before(x, r[0]) then [x] + r
    else [r[0]] + Insert(x, r[1..])
  }

  lemma {:induction false} InsertAdds(x: TestResult, r: seq<TestResult>)
    ensures multiset(Insert(x, r)) == multiset(r) + multiset{x}
  {
    if r != [] {
      assert r == [r[0]] + r[1..];
      InsertAdds(x, r[1..]);
    }
  }

  lemma RankedCons(a: TestResult, s: seq<TestResult>)
    requires Ranked(s) && forall i :: 0 <= i < |s| ==> !Before(s[i], a)
    ensures Ranked([a] + s)
  {
  }

  lemma {:induction false} InsertRanks(x: TestResult, r: seq<TestResult>)
    requires Ranked(r)
    ensures Ranked(Insert(x, r))
  {
    if r != [] {
      assert forall i :: 0 < i < |r| ==> !Before(r[i], r[0]);
      if Before(x, r[0]) {
        RankedCons(x, r);
      } else {
        var rest := Insert(x, r[1..]);
        InsertRanks(x, r[1..]);
        InsertAdds(x, r[1..]);
        forall i | 0 <= i < |rest| ensures !Before(rest[i], r[0]) {
          assert rest[i] in multiset(rest);
          assert rest[i] == x || rest[i] in r[1..];
        }
        RankedCons(r[0], rest);
      }
    }
  }

  /** Sorting, as the library promises it: some ranking of the input. */
  method SortBySpeed(s: seq<TestResult>) returns (r: seq<TestResult>)
    ensures RankingOf(s, r)
  {
    r := [];
    for n := 0 to |s|
      invariant RankingOf(s[..n], r)
    {
      InsertRanks(s[n], r);
      InsertAdds(s[n], r);
      r := Insert(s[n], r);
      assert s[..n + 1] == s[..n] + [s[n]];
    }
    assert s[..|s|] == s;
  }

  /** The sorted copy kept for the debug listing; the argument is not changed. */
  method SortResults(results: seq<TestResult>) returns (sorted: seq<TestResult>)
    ensures RankingOf(results, sorted)
    ensures multiset(sorted) == multiset(results) && BestFirst(sorted)
  {
    sorted := SortBySpeed(results);
    RankedMeans(sorted);
  }

  class CandidatePool {
    var candidates: seq<TestResult>
    var excluded: set<string>
    const maxLen: nat
    /** Every result ever submitted, including those trimmed since. */
    ghost var submitted: multiset<TestResult>

    ghost predicate Valid()
      reads this
    {
      Ranked(candidates) && IsTop(candidates, submitted, maxLen)
    }

    constructor (maxLen: nat)
      ensures Valid() && this.maxLen == maxLen
      ensures candidates == [] && excluded == {} && submitted == multiset{}
    {
      candidates, excluded, this.maxLen, submitted := [], {}, maxLen, multiset{};
    }

    method Update(results: seq<TestResult>)
      requires Valid()
      modifies this
      ensures Valid()
      ensures submitted == old(submitted) + multiset(results)
      ensures Updated(old(candidates), results, maxLen, candidates)
      ensures multiset(candidates) <= submitted
      ensures |candidates| == if |submitted| > maxLen then maxLen else |submitted|
      ensures BestFirst(candidates)
      ensures NoneBetterLeft(candidates, submitted)
      ensures excluded == old(excluded)
    {
      var merged := SortBySpeed(candidates + results);
      ghost var all := submitted + multiset(results);
      var kept := Trim(merged, maxLen);
      TopStep(candidates, submitted, results, maxLen, merged);
      RankedMeans(kept);
      TopMeans(kept, all, maxLen);
      candidates, submitted := kept, all;
    }

    method Exclude(raw: string)
      requires Valid()
      modifies this`excluded
      ensures Valid()
      ensures excluded == old(excluded) + {raw}
    {
      excluded := excluded + {raw};
    }

    /** A returned candidate is the fastest of everything eligible that was ever
        submitted, trimmed entries included. */
    method Best() returns (r: Option<TestResult>)
      requires Valid()
      ensures r == FirstEligible(candidates, excluded)
      ensures r.Some? ==> forall x :: x in submitted && !x.failed && x.config.raw !in excluded ==>
        x.speed <= r.value.speed
    {
      var i := 0;
      while i < |candidates|
        invariant 0 <= i <= |candidates|
        invariant FirstEligible(candidates, excluded) == FirstEligible(candidates[i..], excluded)
      {
        var c := candidates[i];
        if !c.failed && c.config.raw !in excluded {
          BestIsFastest(candidates, submitted, maxLen, excluded);
          return Some(c);
        }
        i := i + 1;
      }
      r := None;
    }

    /** The pool entry by entry, best first. */
    method List() returns (out: seq<TestResult>)
      requires Valid()
      ensures out == candidates && BestFirst(out) && |out| <= maxLen && multiset(out) <= submitted
    {
      out := [];
      for i := 0 to |candidates|
        invariant out == candidates[..i]
      {
        out := out + [candidates[i]];
      }
      assert candidates[..|candidates|] == candidates;
      RankedMeans(out);
    }
  }

  /** Successes come first, and each kind by falling speed. */
  ghost predicate BestFirst(r: seq<TestResult>) {
    forall i, j :: 0 <= i < j < |r| ==>
      (r[i].failed ==> r[j].failed) && (r[i].failed == r[j].failed ==> r[i].speed >= r[j].speed)
  }

  lemma RankedMeans(r: seq<TestResult>)
    requires Ranked(r)
    ensures BestFirst(r)
  {
  }

  /** No success is left out for a failure, nor a faster result for a slower one of
      its kind. */
  ghost predicate NoneBetterLeft(pool: seq<TestResult>, all: multiset<TestResult>) {
    forall x, y :: x in all - multiset(pool) && y in pool ==>
      (y.failed ==> x.failed) && (x.failed == y.failed ==> y.speed >= x.speed)
  }

  lemma TopMeans(pool: seq<TestResult>, all: multiset<TestResult>, maxLen: nat)
    requires IsTop(pool, all, maxLen)
    ensures NoneBetterLeft(pool, all)
  {
  }

  lemma TopStep(pool: seq<TestResult>, all: multiset<TestResult>, results: seq<TestResult>, maxLen: nat,
                merged: seq<TestResult>)
    requires IsTop(pool, all, maxLen) && RankingOf(pool + results, merged)
    ensures Ranked(Trim(merged, maxLen))
    ensures IsTop(Trim(merged, maxLen), all + multiset(results), maxLen)
  {
    var kept := Trim(merged, maxLen);
    var rest := multiset(merged[|kept|..]);
    var gone := all - multiset(pool);
    assert merged == kept + merged[|kept|..];
    assert all == multiset(pool) + gone;
    TopSplit(all, multiset(pool), gone, multiset(results), multiset(kept), rest);
    MultisetSize(pool);
    MultisetSize(merged);
    MultisetSize(pool + results);
    forall x, y | x in rest + gone && y in kept ensures !Before(x, y) {
      TailIsNotBetter(merged, |kept|, y);
      if x !in rest { TrimmedStaysOut(pool, kept, rest, x, y); }
    }
  }

  lemma TopSplit(all: multiset<TestResult>, pool: multiset<TestResult>, gone: multiset<TestResult>,
                 added: multiset<TestResult>, kept: multiset<TestResult>, rest: multiset<TestResult>)
    requires all == pool + gone && pool + added == kept + rest
    ensures all + added == kept + (rest + gone)
    ensures all + added - kept == rest + gone
    ensures |all| == |pool| + |gone|
  {
    forall x ensures (all + added)[x] == (kept + (rest + gone))[x] {
      assert (pool + added)[x] == (kept + rest)[x];
    }
  }

  /** In a ranking, nothing after position `n` beats anything before it. */
  lemma TailIsNotBetter(s: seq<TestResult>, n: nat, y: TestResult)
    requires Ranked(s) && n <= |s| && y in s[..n]
    ensures forall x :: x in multiset(s[n..]) ==> !Before(x, y)
  {
    var j :| 0 <= j < n && s[..n][j] == y;
    forall x | x in s[n..] ensures !Before(x, y) {
      var i :| 0 <= i < |s[n..]| && s[n..][i] == x;
      assert s[n + i] == x && s[j] == y;
    }
  }

  /** If `x` was trimmed earlier, nothing worse than `x` can be kept now. */
  lemma TrimmedStaysOut(pool: seq<TestResult>, kept: seq<TestResult>, rest: multiset<TestResult>, x: TestResult,
                        y: TestResult)
    requires |kept| <= |pool| && y in kept
    requires forall p :: p in pool ==> !Before(x, p)
    requires forall z :: z in rest ==> !Before(z, y)
    requires multiset(pool) <= multiset(kept) + rest
    ensures !Before(x, y)
  {
    if Before(x, y) {
      forall p | p in multiset(pool) ensures p !in rest {
        assert p in pool && Before(p, y);
      }
      assert multiset(pool) + multiset{y} <= multiset(kept);
      SubSize(multiset(pool) + multiset{y}, multiset(kept));
      MultisetSize(pool);
      MultisetSize(kept);
    }
  }

  lemma SubSize(a: multiset<TestResult>, b: multiset<TestResult>)
    ensures a <= b ==> |a| <= |b|
  {
    if a <= b {
      assert b == a + (b - a);
    }
  }

  lemma MultisetSize(s: seq<TestResult>)
    ensures |multiset(s)| == |s|
  {
  }

  lemma {:induction false} BestRanks(pool: seq<TestResult>, excluded: set<string>)
    requires Ranked(pool)
    ensures var b := FirstEligible(pool, excluded);
      b.Some? ==> forall x :: x in pool && !x.failed && x.config.raw !in excluded ==> x.speed <= b.value.speed
  {
    if pool != [] && (pool[0].failed || pool[0].config.raw in excluded) {
      assert forall i :: 0 <= i < |pool[1..]| ==> pool[1..][i] == pool[i + 1];
      BestRanks(pool[1..], excluded);
      assert forall x :: x in pool ==> x == pool[0] || x in pool[1..];
    } else if pool != [] {
      forall x | x in pool && !x.failed ensures x.speed <= pool[0].speed {
        var i :| 0 <= i < |pool| && pool[i] == x;
      }
    }
  }

  /** `Best` is the fastest eligible result of the whole history. */
  lemma BestIsFastest(pool: seq<TestResult>, all: multiset<TestResult>, maxLen: nat, excluded: set<string>)
    requires Ranked(pool) && IsTop(pool, all, maxLen)
    ensures var b := FirstEligible(pool, excluded);
      b.Some? ==> forall x :: x in all && !x.failed && x.config.raw !in excluded ==> x.speed <= b.value.speed
  {
    BestRanks(pool, excluded);
    var b := FirstEligible(pool, excluded);
    if b.Some? {
      forall x | x in all && !x.failed && x.config.raw !in excluded ensures x.speed <= b.value.speed {
        if x !in pool {
          assert x in all - multiset(pool);
          assert !Before(x, b.value);
        }
      }
    }
  }

  /** Two best choices from the same history agree position by position on keys. */
  lemma TopKeysUnique(p: seq<TestResult>, q: seq<TestResult>, all: multiset<TestResult>, maxLen: nat)
    requires Ranked(p) && Ranked(q) && IsTop(p, all, maxLen) && IsTop(q, all, maxLen)
    ensures Keys(p) == Keys(q)
  {
    forall i | 0 <= i < |p| ensures Key(p[i]) == Key(q[i]) {
      if Before(p[i], q[i]) { NoBetterPrefix(p, q, all, maxLen, i); }
      if Before(q[i], p[i]) { NoBetterPrefix(q, p, all, maxLen, i); }
    }
  }

  lemma NoBetterPrefix(p: seq<TestResult>, q: seq<TestResult>, all: multiset<TestResult>, maxLen: nat, i: nat)
    requires Ranked(p) && Ranked(q) && IsTop(p, all, maxLen) && IsTop(q, all, maxLen)
    requires i < |p| == |q|
    ensures !Before(p[i], q[i])
  {
    if Before(p[i], q[i]) {
      var head := p[..i + 1];
      forall j | 0 <= j < |head| ensures Before(head[j], q[i]) {
        assert head[j] == p[j] && (j < i ==> !Before(p[i], p[j]));
      }
      BetterIsKept(q, all, maxLen, q[i]);
      AllKept(p, i + 1, q, all, q[i]);
      TooFewBetter(head, q, i);
    }
  }

  lemma AllKept(p: seq<TestResult>, n: nat, q: seq<TestResult>, all: multiset<TestResult>, y: TestResult)
    requires n <= |p| && multiset(p) <= all
    requires forall j :: 0 <= j < n ==> Before(p[..n][j], y)
    requires forall x :: Before(x, y) ==> all[x] <= multiset(q)[x]
    ensures multiset(p[..n]) <= multiset(q)
  {
    assert p == p[..n] + p[n..];
    forall x | x in multiset(p[..n]) ensures multiset(p[..n])[x] <= multiset(q)[x] {
      assert x in p[..n];
      assert multiset(p[..n])[x] <= multiset(p)[x] <= all[x];
    }
  }

  /** Whatever beats a kept entry is kept, with all its copies. */
  lemma BetterIsKept(q: seq<TestResult>, all: multiset<TestResult>, maxLen: nat, y: TestResult)
    requires IsTop(q, all, maxLen) && y in q
    ensures forall x :: Before(x, y) ==> all[x] <= multiset(q)[x]
  {
    forall x | Before(x, y) ensures all[x] <= multiset(q)[x] {
      assert x !in all - multiset(q);
    }
  }

  /** A ranking cannot contain i + 1 entries that all beat its entry at i. */
  lemma TooFewBetter(head: seq<TestResult>, q: seq<TestResult>, i: nat)
    requires Ranked(q) && i < |q| && |head| == i + 1
    requires forall j :: 0 <= j < |head| ==> Before(head[j], q[i])
    ensures !(multiset(head) <= multiset(q))
  {
    var a := multiset(head);
    assert q == q[..i] + q[i..] && q == q[..i + 1] + q[i + 1..];
    assert q[..i + 1][i] == q[i];
    TailIsNotBetter(q, i + 1, q[i]);
    assert q[i..] == [q[i]] + q[i + 1..];
    forall x | x in a ensures x !in multiset(q[i..]) {
      assert x in head;
      var j :| 0 <= j < |head| && head[j] == x;
      assert x != q[i];
    }
    assert a <= multiset(q) ==> a <= multiset(q[..i]);
    SubSize(a, multiset(q[..i]));
    MultisetSize(head);
    MultisetSize(q[..i]);
  }

  function Flatten(batches: seq<seq<TestResult>>): seq<TestResult> {
    if batches == [] then [] else Flatten(batches[..|batches| - 1]) + batches[|batches| - 1]
  }

  /** `pools` is a history of the pool under the given calls of `Update`. */
  ghost predicate History(batches: seq<seq<TestResult>>, pools: seq<seq<TestResult>>, maxLen: nat) {
    && |pools| == |batches| + 1
    && pools[0] == []
    && forall k :: 0 <= k < |batches| ==> Updated(pools[k], batches[k], maxLen, pools[k + 1])
  }

  lemma {:induction false} HistoryIsTop(batches: seq<seq<TestResult>>, pools: seq<seq<TestResult>>, maxLen: nat)
    requires History(batches, pools, maxLen)
    ensures Ranked(pools[|batches|]) && IsTop(pools[|batches|], multiset(Flatten(batches)), maxLen)
    decreases |batches|
  {
    if batches != [] {
      var n := |batches| - 1;
      var before := batches[..n];
      assert History(before, pools[..n + 1], maxLen) by {
        forall k | 0 <= k < n ensures Updated(pools[..n + 1][k], before[k], maxLen, pools[..n + 1][k + 1]) {
          assert Updated(pools[k], batches[k], maxLen, pools[k + 1]);
        }
      }
      HistoryIsTop(before, pools[..n + 1], maxLen);
      assert pools[..n + 1][n] == pools[n];
      assert Updated(pools[n], batches[n], maxLen, pools[n + 1]);
      var merged :| RankingOf(pools[n] + batches[n], merged) && pools[n + 1] == Trim(merged, maxLen);
      TopStep(pools[n], multiset(Flatten(before)), batches[n], maxLen, merged);
      assert Flatten(batches) == Flatten(before) + batches[n];
    }
  }

  /** Feeding results batch by batch ends with the same keys as ranking everything
      ever submitted once and keeping the first `maxLen`, whatever ties did. */
  lemma OnlineEqualsOffline(batches: seq<seq<TestResult>>, pools: seq<seq<TestResult>>, maxLen: nat,
                            offline: seq<TestResult>)
    requires History(batches, pools, maxLen) && RankingOf(Flatten(batches), offline)
    ensures Ranked(pools[|batches|])
    ensures Keys(pools[|batches|]) == Keys(Trim(offline, maxLen))
  {
    HistoryIsTop(batches, pools, maxLen);
    var all := Flatten(batches);
    assert [] + all == all;
    MultisetSize([]);
    TopStep([], multiset{}, all, maxLen, offline);
    assert multiset{} + multiset(all) == multiset(all);
    TopKeysUnique(pools[|batches|], Trim(offline, maxLen), multiset(all), maxLen);
  }

  /** Every success ever submitted shares its raw text with one still in the pool. */
  ghost predicate RawsKept(pool: seq<TestResult>, all: multiset<TestResult>) {
    forall x :: x in all && !x.failed ==> exists y :: y in pool && !y.failed && y.config.raw == x.config.raw
  }

  /** Whatever was excluded, an empty answer means that nothing eligible was ever
      submitted: exactly when no raw text of a success was lost by trimming. */
  lemma NilIsTruthfulIff(pool: seq<TestResult>, all: multiset<TestResult>, maxLen: nat)
    requires IsTop(pool, all, maxLen)
    ensures (forall excluded :: FirstEligible(pool, excluded) == None ==> forall x :: x in all && !x.failed ==>
      x.config.raw in excluded)
      <==> RawsKept(pool, all)
  {
    var kept := set y | y in pool && !y.failed :: y.config.raw;
    assert FirstEligible(pool, kept) == None;
  }

  /** In particular while no more results were submitted than fit. */
  lemma NilIsTruthfulUntilFull(pool: seq<TestResult>, all: multiset<TestResult>, maxLen: nat, excluded: set<string>)
    requires IsTop(pool, all, maxLen) && |all| <= maxLen
    ensures FirstEligible(pool, excluded) == None <==> forall x :: x in all && !x.failed ==> x.config.raw in excluded
  {
    assert all == multiset(pool) + (all - multiset(pool));
    assert all - multiset(pool) == multiset{};
  }

  /** With room for one, the slower of two successes is forgotten, and excluding the
      faster leaves none. */
  lemma TrimmedEligibleIsForgotten(fast: TestResult, slow: TestResult)
    requires !fast.failed && !slow.failed && fast.speed > slow.speed && fast.config.raw != slow.config.raw
    ensures Updated([], [slow, fast], 1, [fast])
    ensures FirstEligible([fast], {fast.config.raw}) == None
  {
    assert [] + [slow, fast] == [slow, fast];
    assert RankingOf([] + [slow, fast], [fast, slow]) && Trim([fast, slow], 1) == [fast];
  }
}
