/** The pool, the processes and the candidates together, and the atomic
    drop-and-replace step on them. */
module World {
  import opened Base
  import opened WanSpec
  import opened Candidates

  datatype World = World(sys: Sys, candidates: seq<TestResult>, excluded: set<string>)

  datatype DropError = DropOutOfRange | NoReplacementCandidate | ReplacementTestFailed | PrepareFailed | StartFailed
    | ActivateFailed

  /** Exclusions after dropping slot `i`: its raw text joins them unless it is empty. */
  function ExcludedBy(w: World, i: nat): set<string>
    requires i < |w.sys.slots|
  {
    var current := w.sys.slots[i].config;
    if current.Some? && current.value.raw != "" then w.excluded + {current.value.raw} else w.excluded
  }

  /** The candidate a drop of slot `i` promotes: the best left, if it passes its
      re-test (`retest` is None for a missing result) and its process starts. */
  function DropPromotes(w: World, i: nat, retest: Option<TestResult>, startOk: bool): Option<TestResult>
    requires i < |w.sys.slots|
  {
    if retest.Some? && !retest.value.failed && startOk then FirstEligible(w.candidates, ExcludedBy(w, i)) else None
  }

  function Drop(w: World, i: nat, basePort: int, retest: Option<TestResult>, startOk: bool): (r: World)
    requires i < |w.sys.slots|
    ensures |r.sys.slots| == |w.sys.slots|
  {
    var ex := ExcludedBy(w, i);
    var c := FirstEligible(w.candidates, ex);
    var cleared := Reset(w.sys, i);
    if c.None? || retest.None? || retest.value.failed then World(cleared, w.candidates, ex)
    else World(Promote(cleared, i, c.value.config, basePort + i, startOk, retest.value.speed, retest.value.stability),
      w.candidates, ex)
  }

  /** What the caller is told; None is success. */
  function DropReply(w: World, i: nat, retest: Option<TestResult>, startOk: bool): Option<DropError>
    requires i < |w.sys.slots|
  {
    if FirstEligible(w.candidates, ExcludedBy(w, i)).None? then Some(NoReplacementCandidate)
    else if retest.None? || retest.value.failed then Some(ReplacementTestFailed)
    else if !startOk then Some(StartFailed)
    else None
  }

  /** A drop in terms of slots and processes: the raw text is excluded, the old process
      is stopped and the slot cleared. If a candidate is left, passes its re-test and
      starts, the slot runs it on its own port with the figures of the re-test. Nothing
      else changes. */
  lemma DropMeans(w: World, i: nat, basePort: int, retest: Option<TestResult>, startOk: bool)
    requires i < |w.sys.slots|
    ensures var w', was := Drop(w, i, basePort, retest, startOk), w.sys.slots[i];
      && w'.candidates == w.candidates
      && (forall raw :: raw in w'.excluded <==>
            raw in w.excluded || (was.config.Some? && was.config.value.raw == raw && raw != ""))
      && (forall j :: 0 <= j < |w.sys.slots| && j != i ==> w'.sys.slots[j] == w.sys.slots[j])
    ensures DropReply(w, i, retest, startOk) != None ==> Vacated(w, i, Drop(w, i, basePort, retest, startOk))
    ensures DropReply(w, i, retest, startOk) == None ==>
      exists c :: Taken(w, i, basePort, retest, c, Drop(w, i, basePort, retest, startOk))
    ensures DropReply(w, i, retest, startOk) == None ==> retest.Some? && !retest.value.failed && startOk
  {
    if DropReply(w, i, retest, startOk) == None {
      var c := FirstEligible(w.candidates, ExcludedBy(w, i)).value;
      assert Taken(w, i, basePort, retest, c, Drop(w, i, basePort, retest, startOk));
    }
  }

  /** Slot `i` is empty and its process is gone. */
  ghost predicate Vacated(w: World, i: nat, w': World)
    requires i < |w.sys.slots| == |w'.sys.slots|
  {
    var cmd := w.sys.slots[i].cmd;
    && w'.sys.slots[i] == Slot(Empty, None, None, 0, 0, 0.0, 0, None, "", None)
    && w'.sys.os.live == w.sys.os.live - if cmd.Some? then {cmd.value} else {}
  }

  /** Slot `i` runs candidate `c`, which is eligible, in a new process on its own port. */
  ghost predicate Taken(w: World, i: nat, basePort: int, retest: Option<TestResult>, c: TestResult, w': World)
    requires i < |w.sys.slots| == |w'.sys.slots|
  {
    var cmd, h := w.sys.slots[i].cmd, w.sys.os.next;
    && retest.Some? && c in w.candidates && !c.failed && c.config.raw !in w'.excluded
    && w'.sys.slots[i] ==
         Slot(Active, Some(c.config), Some(h), 0, 0, retest.value.speed, retest.value.stability, None, "", None)
    && w'.sys.os.live == (w.sys.os.live - if cmd.Some? then {cmd.value} else {})[h := basePort + i]
  }

  /** The reply names the first thing that went wrong. */
  lemma ReplyMeans(w: World, i: nat, retest: Option<TestResult>, startOk: bool)
    requires i < |w.sys.slots|
    ensures var reply := DropReply(w, i, retest, startOk);
      var left := exists c :: c in w.candidates && !c.failed && c.config.raw !in ExcludedBy(w, i);
      && (reply == Some(NoReplacementCandidate) <==> !left)
      && (reply == Some(ReplacementTestFailed) <==> left && (retest.None? || retest.value.failed))
      && (reply == Some(StartFailed) <==> left && retest.Some? && !retest.value.failed && !startOk)
      && (reply == None <==> left && retest.Some? && !retest.value.failed && startOk)
  {
  }
}
