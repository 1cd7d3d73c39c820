# viberoxy: WAN pool, candidates, routing and SOCKS5, modelled in Dafny

This project models the part of viberoxy that keeps state: a fixed pool of WAN slots that
move `empty -> testing -> active -> draining -> empty`, the fetch-and-test cycle, the
keepalive prober, drop-and-replace requests and connection handlers that drive it, and the
bounded pool of replacement candidates beside it. Three smaller components are modelled
with it: both ends of the SOCKS5 handshake (sections 3 to 6 of RFC 1928), the split
router's suffix matching, and the labelled metrics store. `dafny verify dfyconfig.toml`
checks everything.

## How it is organised

Objects that the program updates in place are classes whose methods are proved against
functions on snapshots; the theorems are about those functions.

| file | what it holds |
|---|---|
| `WanSpec.dfy`, `Wan.dfy` | slots, the table of live service processes, and the pool class |
| `Candidates.dfy`, `Chooser.dfy` | the top-N candidate pool; the choice of a replacement and the stability score |
| `World.dfy`, `Cycle.dfy`, `CycleRun.dfy` | drop-and-replace, the cycle, startup and the keepalive pass as steps, and the loops that perform them |
| `CycleLaws.dfy`, `Lifecycle.dfy` | the fill loop is first fit; when a rotation happens; both for every cycle of every run |
| `Runs.dfy`, `DropRuns.dfy`, `Duplicates.dfy`, `Speeds.dfy` | runs of atomic steps: processes, endpoints, the leak guard, exclusions, refills, speeds |
| `DropProtocol.dfy`, `Serial.dfy`, `Phases.dfy` | drop-and-replace at the grain of its lock sections, under every interleaving; its serializability; runs that mix such phases with atomic steps |
| `Balance.dfy`, `Ledger.dfy`, `Relay.dfy` | racing connection handlers; what the counters mean over a trace; one tunnel and failover |
| `Socks.dfy`, `SocksWire.dfy`, `Router.dfy`, `Metrics.dfy`, `Protocols.dfy` | the smaller components and the subscription-to-outbound chain |
| `Base.dfy`, `Text.dfy` | shared types; the string functions the program relies on |

What the outside world decides is a parameter: whether a speed test fails and what it
measures, whether a process starts, which processes are still alive, what a probe finds,
what time it is, and how the network cuts a stream into pieces. Sorting may leave equal
keys in any order. Speeds are reals, strings are ASCII.

## Where the code differs from its documentation

The model follows the code.

- README.md:135 says draining slots get no new connections. `GetLeastLoaded` scans active and
  draining slots alike (wan.go:497, wan.go:519). Marking a slot draining changes no pick at
  all (`DrainingChangesNoPick`), and a less loaded draining slot is preferred to an active one
  (`DrainingBeatsActive`). The promise holds, whatever the connection counts, exactly when no
  draining slot is eligible: routable, or merely serving when none is routable
  (`NeverDrainingIff`).
- README.md:140 says a WAN above `MINIMUM_SPEED` is never replaced. The rotation never reads
  the speed of the slot it drains (main.go:787-811). It drains such a slot exactly when all
  slots are active, some passing result is served nowhere, and the least stable slot is
  that fast (`FastRotationIff`). In runs without drops every serving slot is that fast, so the
  promise holds there only in cycles that rotate nothing: unless all slots end active and an
  entry that passed its test failed to start and is served nowhere (`FastAreKeptIff`).
  `FastSlotIsRotatedOut` is an instance.
- tester.go:316 says a slower result is never preferred over a faster one. That holds only up
  to a tolerance that accumulates (`SlowerCanWin`). For n results a fastest one wins in every
  order and for all stability scores exactly when no slower one comes within the tolerance
  of the top speed (`FastestWinsIff`); `PickNearFastest` bounds the loss otherwise.
- router.go:109-110 says bare IPv6 literals like `[::1]` survive normalisation. A bracketed
  literal survives exactly when its last group does not begin with a digit
  (`BracketedSurvivesIff`); `[::1]` becomes `[:`.
- A slot's connection counter is the number of open connections only while nothing is open
  from before its last reset (`ConnsTrueIff`). It is not enough that nothing from before is
  open now: begin, reset, end leaves -1 with nothing open (`ClearedThenClosed`).
- `IsXraySupported` alone is sound exactly on the protocols the parser produces
  (`GuardSufficesIff`); others pass it and leave directly.
- `DropAndReplace` does not ask `HasServerPort`, so it can serve one endpoint twice: after a
  cycle that starts two entries, dropping the slower one starts the faster one again beside
  itself (`DropServesTwice`). `DropUniqueIff` says exactly when one drop does so, and
  `RunUniqueIff` which runs keep endpoints unique.
- A nil answer of `Best` means that nothing eligible was ever submitted only while trimming
  has lost no raw text of a success (`NilIsTruthfulIff`).
- A candidate with an empty raw text is never excluded, and that is exactly what breaks the
  bound on refills (`RefillsBoundedIff`). Only a caller of the pool can submit one: no world
  reached from subscription texts holds it, so there the bound is unconditional
  (`ReachableRefillsBounded`).
- Two label tuples of a metric share a series exactly when they have at least two labels and
  one contains NUL (`KeyIsSharedIff`).

## Model

| member | source | states |
|---|---|---|
| Runs.ProcessesConserved | wan.go:160-180 | at every point of every run of startup passes, cycles, keepalive passes, drops and shutdowns, the processes started and not stopped are exactly the handles of active and draining slots, each live on `BasePort + index` |
| Runs.OneProcessPerPort | wan.go:103-113 | in a conserved pool two live processes on one port are the same process |
| Runs.ShutdownStopsAll | wan.go:577-591 | a shutdown after any run leaves no live process |
| Runs.ShutdownConserves | wan.go:577-591 | draining then clearing every slot keeps conservation and empties the process table |
| Runs.DropConserves | wan.go:119-181 | a drop keeps conservation on every one of its outcomes |
| Runs.EndpointsStayUnique | wan.go:301-314 | in every run without drops no two serving slots share server and port |
| Runs.DropUniqueIff | wan.go:143-173 | a successful drop keeps endpoints unique if and only if no other slot serves the promoted endpoint |
| Duplicates.RunUniqueIff | wan.go:143-173 | along any run no endpoint is ever served twice if and only if every drop that promotes does so for an endpoint no other slot serves at that point |
| Duplicates.DropServesTwice | wan.go:143-173 | a reachable failing run: a cycle starts two entries, and dropping the slower one promotes the faster one a second time |
| Runs.NothingLeaks | main.go:699-814 | starting from subscription text, in every run every serving slot and every pooled candidate has an outbound that is not `freedom`, and every candidate has a non-empty raw text |
| DropProtocol.DropsAreSafe | wan.go:119-181 | for any number of callers and every interleaving of lock sections with keepalive and connections: at most one live process per port, each held by its slot or by the single caller inside the lock, and the prepare and activate error exits are never taken |
| DropProtocol.StepKeepsInv | wan.go:183-257 | every single step of every actor keeps the protocol invariant |
| DropProtocol.QuietMeansConserved | wan.go:119-181 | whenever no caller is inside the lock the pool is conserved again |
| DropProtocol.QuietRunsConserve | wan.go:119-181 | any interleaving that ends with no call inside ends conserved |
| Phases.PhasesConserve | wan.go:119-181 | processes stay conserved over runs in which atomic steps alternate with phases of concurrent drops, keepalive and connections |
| Phases.NothingLeaksInPhases | main.go:699-814 | the leak guard holds over runs that mix atomic steps fed by subscription text with phases of concurrent drops |
| Phases.ExcludedStaysOut | wan.go:133-147 | what was excluded before some phase is promoted by no drop of any later phase, atomic or concurrent |
| Phases.DroppedIsExcluded | wan.go:133-135 | each drop of a concurrent phase leaves the non-empty raw text of its slot excluded |
| DropProtocol.UndisturbedCallIsAtomic | wan.go:119-181 | a call that nobody interrupts has exactly the effect and the reply of the atomic drop and frees the lock |
| Serial.DropsAreSerializable | wan.go:119-181 | every interleaving has a log of atomic drops in lock order, each one called for, such that with the lock free the configs, handles, processes, exclusions and candidates are those of the log, and every caller that is back got the reply of its last entry |
| Serial.OwnerAdvances | wan.go:127-180 | each step inside the lock carries the atomic drop one step further, or finishes it with its reply |
| Serial.ExcludedIsNotPromoted | wan.go:133-147 | no drop of a log promotes what was excluded before it |
| DropRuns.DroppedStaysOut | wan.go:127-180 | once a slot's non-empty raw text was dropped, no later drop of any run promotes it |
| DropRuns.RefillsBounded | candidate.go:55-77 | between cycles a slot is refilled at most as often as there are distinct eligible raw texts at the start |
| DropRuns.RefillsBoundedIff | wan.go:133-135 | that bound holds for every run exactly when no eligible candidate has an empty raw text |
| DropRuns.EmptyRawRefillsForever | wan.go:133-135 | with an eligible candidate without raw text, n drops give n refills for every n |
| DropRuns.ReachableRefillsBounded | parser.go:65-118 | in every world reached from subscription texts the refill bound holds without condition |
| Lifecycle.EveryCycleIsFirstFit | main.go:730-811 | every cycle of every run fills by first fit within its budget, and rotates only with all slots active and for an entry that was tested in it, passed, failed to start and is served by no slot |
| Lifecycle.RunsStaySettled | wan.go:183-257 | between the steps of a run no slot is left in testing |
| Lifecycle.SweptExactly | main.go:707-715 | the start of a cycle clears a slot exactly when it has been draining for the grace period, or is active or draining without a live process, and touches no other |
| Lifecycle.SweptStops | main.go:707-715 | it stops exactly the processes of those slots |
| Lifecycle.CycleMeans | main.go:699-814 | one whole cycle in slot fields: the sweep, first fit within the budget, at most one drain mark exactly when all slots are active and an entry tested in it failed to start and is served nowhere, the results as candidates, exclusions kept |
| CycleLaws.FillIsFirstFit | main.go:730-772 | the fill loop equals an independent first-fit plan: the same entries in the same slots, other occupied slots untouched, tests within the budget, and an empty slot left only if the budget or the subscription ran out |
| CycleLaws.FirstFitIsSound | main.go:730-772 | the plan takes free slots in ascending order and entries in subscription order, each supported, fast enough, started, unserved, with pairwise distinct endpoints |
| CycleLaws.FirstFitIsComplete | main.go:730-772 | an entry before the last one placed, or any entry if a slot and budget are left, is placed or unsupported, served, failed, too slow or not startable |
| CycleLaws.ResultsMean | main.go:748-750 | the results carry config, speed, score and outcome of the tested entries in order |
| CycleLaws.StartupIsFirstFit | main.go:529-575 | a startup pass on a settled pool carries out the same first-fit plan with every entry within its budget |
| CycleLaws.StartupIsUnboundedFill | main.go:529-575 | on a settled pool the startup loop ends in the state of a fill loop whose budget cannot run out |
| CycleLaws.PassedIsServed | main.go:753-769 | each result belongs, in order, to an entry that was tested; if that entry passed and started it is served at the end of the loop; endpoints once served stay served |
| CycleLaws.RotationIff | main.go:787-811 | a slot is rotated exactly when all slots are active and some successful, fast enough result of this cycle has an endpoint no slot serves |
| CycleLaws.RotationNeedsFailedStart | main.go:730-811 | a rotation implies an entry that was itself tested this cycle, passed, did not start, and is served by no slot |
| CycleLaws.RotationIffFailedStart | main.go:730-811 | in a settled pool a rotation happens exactly when all slots end active and such an entry exists |
| CycleLaws.NoRotation | main.go:730-811 | a pool without empty slots, or a cycle in which every passing entry starts, rotates nothing |
| CycleLaws.RotationDrainsOne | main.go:787-811 | a rotation turns one most unstable active slot to draining, keeps its process, and changes no other slot |
| CycleLaws.FastRotationIff | main.go:787-811 | a slot at or above the minimum speed is drained exactly when all slots are active, some passing result is served nowhere, and the first least stable slot is that fast |
| CycleLaws.TargetChurns | wan.go:431-442 | the drained slot is the lowest-numbered one with the worst stability score |
| CycleLaws.FastSlotIsRotatedOut | main.go:787-811 | an instance: a slot filled in this cycle is drained for a slower entry that failed to start |
| Speeds.RunsStayFast | main.go:753-770 | in every run without drops every serving slot is at or above the minimum speed |
| Speeds.FastAreKeptIff | main.go:787-811 | after such a run every rotation drains a slot at or above the minimum speed, and none is drained exactly unless all slots end active and an entry tested in the cycle passed, failed to start and is served nowhere |
| CycleLaws.ActiveAtIffServed | main.go:789-797 | in an all-active pool the rotation's own duplicate check agrees with `HasServerPort` |
| CycleRun.TryEntry | main.go:730-772 | the body of the fill loop on the pool: new state, result and whether the loop ends, as the step function of the first-fit law |
| CycleRun.FillLoop | main.go:727-772 | the loop on the pool ends in the state and with the results of the fill function |
| CycleRun.FillFromIsFill | main.go:727-772 | running the loop with an accumulator from any entry is the fill function on the remaining entries |
| CycleRun.Sweep | main.go:707-715 | resetting expired and then dead slots on the pool is the sweep spelled out by `SweptExactly` and `SweptStops` |
| CycleRun.Rotate | main.go:787-811 | the rotation on the pool drains the slot the rotation laws are about |
| CycleRun.RunCycle | main.go:699-814 | a whole cycle on the pool and the candidate pool is the atomic cycle step of the runs |
| CycleRun.StartupOnce | main.go:517-590 | one pass of the startup loop on the pool is the startup step of the runs |
| CycleRun.ProbeAllWANs | main.go:664-697 | a keepalive pass on the pool is the pass spelled out by `ProbeMeans` and `OthersAreNotProbed` |
| Wan.WanPool.constructor | wan.go:103-113 | a new pool has only empty slots, on consecutive ports from the base |
| Wan.WanPool.StartTesting | wan.go:183-196 | only an empty slot becomes testing with the config, its other fields kept; otherwise the right error and no change |
| Wan.WanPool.SetActive | wan.go:198-212 | only a testing slot becomes active with the process, its other fields kept; otherwise the right error and no change |
| Wan.WanPool.MarkDraining | wan.go:214-227 | only an active slot becomes draining at the given time, its other fields kept; otherwise the right error and no change |
| Wan.WanPool.ResetEmpty | wan.go:229-257 | field by field the slot is as new, exactly its process is stopped, and no other slot changes |
| Wan.WanPool.DropAndReplace | wan.go:119-181 | state, exclusions and reply of a drop for every outcome; prepare and activate never fail alone |
| World.DropMeans | wan.go:119-181 | in slot and process fields: the non-empty raw text is excluded; without success the slot is cleared and its process gone; with success it runs an eligible candidate in a new process on its own port with the figures of the re-test; nothing else changes |
| World.ReplyMeans | wan.go:140-171 | which of candidate, re-test and start failed first decides the reply |
| Wan.WanPool.GetLeastLoaded | wan.go:480-527 | the lowest index with the fewest connections among routable slots, among all serving slots if none is routable, -1 if none serves |
| Wan.WanPool.RoutableCount | wan.go:453-468 | the number of active and draining slots with fewer failures than the threshold and a process |
| Wan.WanPool.HasServerPort | wan.go:301-314 | true exactly when some serving slot has that server and port |
| Wan.WanPool.GetSlotsByState | wan.go:269-283 | the list that `ByStateMeans` spells out in slot states |
| Wan.WanPool.PickReplacementSlot | wan.go:431-442 | the slot that `ChurniestIsFirstMaximum` characterises, -1 for no slots |
| Wan.WanPool.DrainExpired | wan.go:543-556 | the draining slots whose mark is at least the grace period old, ascending, and no others |
| Wan.WanPool.HealthCheckAll | wan.go:558-575 | a slot is reported, stopped and cleared exactly when it is active or draining and has no process or one that is not alive |
| Wan.WanPool.ShutdownAll | wan.go:577-591 | the state the shutdown theorem is about |
| Wan.WanPool.IncConnCount | wan.go:529-534 | one more connection on that slot, all else as it was, and nothing for an index out of range |
| Wan.WanPool.DecConnCount | wan.go:536-541 | one connection fewer on that slot, all else as it was |
| Wan.WanPool.RecordFailure | wan.go:354-360 | one more consecutive failure on that slot, all else as it was |
| Wan.WanPool.RecordSuccess | wan.go:362-367 | no consecutive failures on that slot, all else as it was |
| WanSpec.WhereMembers | wan.go:269-283 | a slot scan lists exactly the matching indices |
| WanSpec.WhereAscends | wan.go:269-283 | a slot scan lists them in strictly ascending order |
| WanSpec.WhereCounts | wan.go:285-299 | a slot scan counts exactly the matching indices |
| WanSpec.ByStateMeans | wan.go:269-283 | a scan by state lists exactly the slots in one of the states, ascending |
| WanSpec.ServingCountMeans | wan.go:285-299 | active and draining slots are what is counted |
| WanSpec.ServedMeans | wan.go:301-314 | an endpoint is served when some active or draining slot is configured for it |
| WanSpec.LeastLoadedMeans | wan.go:480-527 | the pick in slot fields: lowest index with the fewest connections among active and draining slots below the threshold with a process, among all active and draining ones if there is none, -1 if these are none either |
| WanSpec.ResetAllStops | main.go:707-715 | resetting a list of slots stops exactly the processes they hold |
| WanSpec.ShutdownExactly | wan.go:577-591 | a shutdown empties every slot and stops every process a slot holds |
| WanSpec.ChurniestIsFirstMaximum | wan.go:431-442 | the replaced slot has the highest score, and the first listed wins ties |
| WanSpec.ResetAllExactly | main.go:707-715 | resetting a list of slots empties those and no others |
| WanSpec.ReapStep | wan.go:558-575 | clearing a dead slot during the scan does not change the verdict on later slots |
| Candidates.CandidatePool.Update | candidate.go:29-52 | the pool is as large as allowed, has its successes first and each kind by falling speed, and leaves out no success for a failure and nothing faster for something slower of its kind, over everything ever submitted |
| Candidates.TopMeans | candidate.go:37-51 | a best choice leaves out no success for a failure and nothing faster of a kind |
| Candidates.RankedMeans | candidate.go:37-46 | a ranking has successes first and each kind by falling speed |
| Candidates.CandidatePool.Exclude | candidate.go:55-59 | exactly the given raw text joins the exclusions |
| Candidates.CandidatePool.Best | candidate.go:63-77 | a non-nil answer is the fastest successful, non-excluded result ever submitted, trimmed ones included |
| Candidates.OnlineEqualsOffline | candidate.go:29-52 | after any updates the pool's keys are, position by position, those of ranking all submissions at once and trimming |
| Candidates.HistoryIsTop | candidate.go:29-52 | after any updates the pool is sorted and no submitted result outside it beats one inside |
| Candidates.TopKeysUnique | candidate.go:29-52 | sorted best choices from the same history agree on their keys whatever order the sort gives ties |
| Candidates.TopStep | candidate.go:29-52 | merging, sorting and trimming keeps a best choice of the history |
| Candidates.BestIsFastest | candidate.go:63-77 | the first eligible entry of a best choice is fastest among all eligible results of the history |
| Candidates.NilIsTruthfulIff | candidate.go:48-77 | for all exclusions a nil answer means that every success ever submitted is excluded, exactly when every success shares its raw text with a success still in the pool |
| Candidates.NilIsTruthfulUntilFull | candidate.go:48-77 | while no more results were submitted than fit, the answer is nil exactly when every success submitted is excluded |
| Candidates.TrimmedEligibleIsForgotten | candidate.go:48-51 | an instance with room for one in which nil hides a forgotten success |
| Candidates.CandidatePool.List | candidate.go:81-93 | the whole pool, successes first and fastest first, at most as long as the limit, and nothing that was not submitted |
| Candidates.SortResults | tester.go:76-89 | a permutation of the argument with successes first and each kind by falling speed |
| Chooser.BestNewCandidate | tester.go:318-340 | one of the results the laws below are about; nil exactly when every result failed, is too slow or is already active |
| Chooser.PickNearFastest | tester.go:318-340 | with n qualifying results the choice is within 0.001 times n - 1 of the fastest, and nil exactly when n is 0 |
| Chooser.PickIsLexBest | tester.go:318-340 | when no qualifying speed lies within the tolerance of the top, the choice is the fastest, then most stable, then earliest |
| Chooser.SeparatedIsLexBest | tester.go:318-340 | the same whenever any two qualifying speeds are equal or more than the tolerance apart |
| Chooser.FastestWinsIff | tester.go:318-340 | for any results, a fastest one is chosen in every order and for all stability scores exactly when no slower qualifying one is within the tolerance of the top speed |
| Chooser.FirstStays | tester.go:331-336 | a first result that none beats by more than the tolerance and none beats in stability is chosen |
| Chooser.FasterWinsIff | tester.go:331-336 | for two speeds: the faster wins in both orders for all stability scores exactly when it leads by more than the tolerance |
| Chooser.SlowerCanWin | tester.go:316 | chained ties lose more than one tolerance |
| Chooser.StabilityScoreFromIPs | tester.go:281-292 | distinct non-empty addresses minus one, 0 when there is none |
| Chooser.NoChurnIff | tester.go:278-280 | a zero score means exactly that all usable observations agree |
| Balance.GapStaysBounded | wan.go:480-527 | while nothing closes and the routable set stays, whatever failures, probes and drain marks happen, the gap between eligible slots never exceeds the larger of the initial gap and the number of handlers between pick and begin |
| Balance.RunKeepsWithin | proxy.go:109-116 | count plus pending stays within the bound of every eligible slot's count, for every interleaving of picks, begins and changes that keep routability |
| Balance.PickIsMinimal | wan.go:480-527 | the picked slot is eligible, has the fewest connections, and is the first such |
| Balance.PickIsUnique | wan.go:480-527 | the specification of the pick admits one answer |
| Balance.NeverDrainingIff | wan.go:480-527 | for a fixed pool no pick is ever a draining slot, whatever the connection counts, exactly when no draining slot is eligible |
| Balance.DrainingChangesNoPick | wan.go:214-227 | marking a slot draining leaves every pick as it was |
| Balance.DrainingIsPicked | wan.go:497 | an eligible draining slot with the fewest connections is picked |
| Balance.DrainingBeatsActive | wan.go:497 | of two routable slots the less loaded draining one is picked over the active one |
| Balance.BoundIsReached | relay.go:30-33 | racing handlers can really open a gap as large as their number |
| Ledger.ConnsLaw | wan.go:529-541 | for every trace a slot's counter is its open connections minus those open at its last reset |
| Ledger.ConnsByEpoch | wan.go:243-255 | the same as connections begun since the last reset and still open, minus those begun before it and closed since |
| Ledger.ConnsTrueIff | relay.go:30-38 | the counter is the true open count exactly when nothing was open at the last reset, and then it is not negative |
| Ledger.ClearedThenClosed | wan.go:243-255 | a trace that leaves the counter at -1 with no connection open |
| Ledger.FailsLaw | wan.go:354-367 | the failure counter is the number of failures since the last success or reset, for every trace |
| Ledger.StepsFollowArrows | wan.go:183-257 | every primitive operation moves a slot along the lifecycle or leaves its state |
| Ledger.DrainingStaysUntilEmpty | wan.go:214-257 | no slot returns from draining to active without having been empty |
| Ledger.PassLeavesHealthyActives | main.go:664-697 | after an undisturbed keepalive pass every active slot is below the threshold |
| Ledger.ProbeMeans | main.go:664-697 | a serving slot's failures grow by one or are cleared, it is drained at the time of the probe exactly on reaching the threshold, an address found is noted with its time, and its other fields stay |
| Ledger.OthersAreNotProbed | main.go:666 | empty and testing slots are left alone |
| Ledger.FailedPassesDrain | main.go:669-680 | under failing passes an active slot counts each one and drains at the threshold, not before |
| Relay.HandleTunnel | proxy.go:74-142 | one tunnel alone: bad, direct and unservable targets leave the pool alone; otherwise a failed dial counts one failure and gets 502, a relayed tunnel clears the failures, one without a client changes nothing, and all else ends as it began |
| Relay.ServeOn | relay.go:30-54 | begin, outcome and end on a slot cancel out except for the failure accounting |
| Relay.FailoverIsExact | relay.go:44-54 | failing tunnels use up the failures the routable slots can still take one by one; some slot is routable exactly until they are used up |
| Relay.PatienceIsGone | wan.go:453-468 | that measure is zero exactly when no slot is routable |
| Relay.FailureCosts | wan.go:354-360 | a failure on a routable slot costs exactly one unit |
| Relay.RelayHeals | relay.go:148-173 | one relayed tunnel makes its slot routable again, provided its process is held |
| Socks.HandshakeAgrees | socks.go:78-171 | every conversation between dialler and listener that comes to rest is complete: the listener connects to exactly the requested address and port and neither side consumes a payload byte |
| Socks.HandshakeCompletes | tester.go:355-452 | such a conversation exists for every IPv4, IPv6 or 1 to 255 byte domain target and every port 1 to 65535 |
| Socks.HandshakeSucceedsIff | tester.go:355-452 | the dialler succeeds exactly for those targets that the listener can connect |
| SocksWire.EveryDeliveryEnds | socks.go:78-171 | for every valid address, under every cutting and timing of the deliveries, only finitely many are possible, and when none is left both ends have sent and received all they ever will |
| SocksWire.EveryDeliveryCompletes | socks.go:78-171 | an accepted conversation is then complete, with the right target and both payloads unread |
| SocksWire.EveryRefusalIsTold | socks.go:117-168 | any other ends with the dialler failed and no payload sent: reply 1 for a target not connected, reply 8 for an empty domain, no request at all for a bad port or an overlong domain |
| SocksWire.DeliveryStaysOnTrack | tester.go:355-452 | each delivery only adds to what each end has sent, and each end has sent what the bytes arrived so far call for |
| SocksWire.UnblockedIsFinal | socks.go:86-168 | once the listener no longer waits for bytes, more input changes nothing but what is left unread |
| Socks.EmptyDomainRefused | socks.go:196-198 | an empty domain is asked for but refused |
| Socks.ListenerUnderstands | socks.go:86-168 | the listener answers the dialler's bytes with the right reply, sees the target, and stops at the payload |
| Socks.DiallerUnderstands | tester.go:362-449 | the dialler accepts the success reply and only that, and stops at the payload |
| Socks.ParseEncoded | socks.go:182-223 | the listener's parser undoes the encoding and stops right after it |
| Socks.ParsedIsEncoded | socks.go:182-223 | the parser accepts nothing but encodings of askable targets |
| Socks.Conn.ReadFull | socks.go:91-94 | for every fragmentation, exactly n bytes of the concatenated stream are taken, or the end is reported |
| Socks.ParseSocksTarget | socks.go:182-223 | parsing from the connection agrees with parsing the byte string, whatever the pieces |
| Socks.HandleSocksConn | socks.go:78-171 | bytes written, target, readiness and bytes left on a fragmented connection are those of the byte-string listener whose answers to every kind of input are spelled out above and below |
| Socks.OtherCommandRefused | socks.go:111-113 | BIND, UDP ASSOCIATE and all other commands get reply 7, nothing more is read, and the listener is not ready |
| Socks.OtherAddressRefused | socks.go:210-212 | unknown address types get reply 8 |
| Socks.PortZeroRefused | socks.go:214-221 | port 0 gets reply 8 |
| Socks.OtherVersionIgnored | socks.go:92-110 | a greeting or request of another version gets no further byte |
| Socks.MethodsAreSkipped | socks.go:95-101 | any list of methods is read and answered with no authentication |
| SocksWire.EndOfStreamMeans | socks.go:88-119 | a stream that ends early: silence for a cut greeting or header, reply 8 for a cut target, never ready |
| Socks.NormalMeans | tester.go:389-398 | an IPv4-mapped IPv6 address is that IPv4 address, all others stay |
| Socks.RequestMeans | tester.go:389-405 | the bytes of a request for each kind of address |
| Socks.Socks5Dial | tester.go:355-452 | bytes written, success and bytes left on a fragmented connection are those of the byte-string dialler |
| Socks.DiallerSkipsBound | tester.go:422-449 | for all three address types of a success reply the dialler stops right after the bound address |
| Socks.OtherChoiceFails | tester.go:367-375 | a method choice other than no authentication fails before anything is asked |
| Socks.OtherBoundFails | tester.go:446-448 | a success reply with an unknown address type fails |
| Socks.OtherReplyFails | tester.go:412-420 | so does a reply of another version or code, after its first four bytes |
| Router.DottedMatchesLabels | router.go:122-142 | a dotted entry matches exactly the hosts whose label list ends with its labels |
| Router.DirectIffListed | router.go:84-103 | a target goes direct exactly in proxy-default mode when an entry of the direct list matches it by labels or is its exact name, or in direct-default mode when no entry of the proxy list does |
| Router.SpellingNormalizes | router.go:106-117 | any case, one trailing dot and a numeric port normalise to the lower-cased host |
| Router.DecideIgnoresSpelling | router.go:84-117 | the decision is the same for all spellings of a colon-free host not ending in a dot, in every mode |
| Router.BracketedSurvivesIff | router.go:106-117 | a bracketed literal is kept whole exactly when its last group does not begin with a digit; otherwise all from the last colon on is lost |
| Router.BracketedLiteralIsMangled | router.go:106-117 | the instance `[::1]`, which becomes `[:` |
| Router.SuffixListConcat | router.go:148-162 | joining two lists with a comma appends what they parse to |
| Router.SuffixListIdempotent | router.go:148-162 | a parsed list written back with commas parses to itself |
| Router.NormalizeHost | router.go:106-117 | the step-by-step normalisation is the function the spelling laws are about |
| Text.TrimSplits | router.go:151 | trimming takes blanks off both ends and nothing else |
| Text.LowerMeans | router.go:116 | lower-casing maps A to Z onto a to z and leaves all else |
| Router.MatchesAny | router.go:122-142 | true exactly when some entry matches the normalised, non-empty host |
| Router.ParseSuffixList | router.go:148-162 | the loop computes the list spelled out by the laws below |
| Router.PartMeans | router.go:148-162 | a blank part gives nothing, any other exactly one entry: its trimmed lower-case text, with a dot in front when it has one inside and none in front |
| Router.ListIsDotted | router.go:156-158 | every entry with a dot starts with one |
| Router.ListMatches | router.go:122-162 | a target is in a parsed list exactly when some part between commas is, as a dotted name, a label suffix of its host, or, without a dot, its host |
| Router.DomainMatches | router.go:122-162 | in particular a plain domain covers itself and all below it, by labels |
| Metrics.SeriesIsOwnFold | metrics.go:91-138 | for a NUL-free label tuple a series exists exactly if a call named it, and equals the fold of those calls alone, whatever labels other calls have |
| Metrics.KeyIsSharedIff | metrics.go:95-103 | a tuple shares its key with another of its length exactly when it has at least two labels and one contains NUL |
| Metrics.NulLabelsCollide | metrics.go:95-103 | an instance with two labels |
| Metrics.BucketsCount | metrics.go:127-138 | each bucket counts the observations at or below its edge, and buckets grow with their edges |
| Metrics.SumIsTotal | metrics.go:130-132 | the sum of a series is the sum of its observed values |
| Metrics.EdgesAscend | metrics.go:16 | nine edges from 0.05 to 16, ascending |
| Metrics.ValueIsBalance | metrics.go:108-120 | a gauge is the last value set plus everything added since |
| Metrics.Metric.StateFor | metrics.go:91-105 | the existing series is found, or a fresh one stored, and no other series changes |
| Metrics.Metric.SetValue | metrics.go:108-112 | the store stays the replay of all calls, now ending with this one |
| Metrics.Metric.AddValue | metrics.go:115-119 | the same for an addition |
| Metrics.Metric.ObserveValue | metrics.go:127-138 | the same for an observation, every bucket included |
| Metrics.Metric.Value | metrics.go:142-153 | reading a NUL-free tuple returns the balance, or the observation count, of its own calls and 0 without any |
| Metrics.EscapePasses | metrics.go:251-256 | the three replacement passes equal one map over characters |
| Metrics.EscapeMeans | metrics.go:251-256 | what becomes of backslash, quote, line feed and any other character, and texts are escaped piece by piece |
| Metrics.UnescapeEscape | metrics.go:251-256 | escaping has a left inverse |
| Protocols.ProxiedIff | xray.go:129-334 | which outbound protocol each config protocol gives, not `freedom` exactly for five of them, and multiplexing exactly for those when asked for |
| Protocols.ParsedProtocols | parser.go:65-118 | a parsed entry has one of the known protocols and a non-empty trimmed raw text |
| Protocols.ParsedMeans | parser.go:65-131 | which schemes parse, under which protocol, with the server and port of the body parser, the name of the body or else of the fragment, and the raw text |
| Protocols.SubscriptionMeans | parser.go:20-47 | a subscription is its lines, plain or as base64 |
| Protocols.LineMeans | parser.go:28-36 | one line gives its entry, or nothing when blank, a comment or not understood |
| Protocols.LinesInOrder | parser.go:28-37 | lines are parsed one by one in order |
| Protocols.GuardIsExactOnParsed | parser.go:54-63 | on parsed entries the guard passes exactly what leaves through a proxy |
| Protocols.GuardSufficesIff | parser.go:54-63 | passing the guard implies leaving through a proxy exactly for the protocols the parser produces |
| Protocols.GuardAloneLeaks | parser.go:54-63 | an instance: `http` passes the guard and leaves directly |
| Protocols.SubscriptionGuarded | parser.go:20-47 | every entry of any subscription text has an exact guard |
| Protocols.ParseConfigs | parser.go:20-38 | the loop yields, in order, the entries the guard laws are about |

## Left out

- Real processes, signals and temporary files: starting returns a fresh handle or fails, and the set of live processes is an input of each health check.
- Speed tests, stability probing over the network, HTTP probes, TLS and the relaying of payload bytes: their outcomes are inputs.
- Environment parsing, logging, `sorted.txt`, starting and stopping servers, and the HTTP handlers of api.go and health.go.
- base64, JSON and URL parsing of the single protocols, credentials and stream settings: a parsed entry is its protocol, server, port, name and raw text, and the library parts are arbitrary functions.
- IP text parsing and formatting: a SOCKS target is IPv4, IPv6 or domain as the encoder classified it; IPv4-mapped IPv6 addresses count as IPv4, as the library does.
- Interleaving of `runCycle` with drops below the level of whole steps: the code takes no common lock there, so a cycle is one atomic step.
- `HealthyActiveCount`, `GetState`, `Len` and the other readers that return one field or one count.
- Floating-point rounding and NaN, Unicode case folding, and integers wrapping around.
- Failing writes on SOCKS connections, and the number of authentication methods offered, which the listener ignores as well.
- The text format of `/metrics`.
- Results without a config: the program only stores results that have one.
- Wan.WanPool.Fill: `SetActive` and the two figure setters are one step here; DropProtocol interleaves them for drops.
- Wan.WanPool.DropAndReplace: the re-test is an input, so its duration inside the lock appears only in DropProtocol; DropProtocol in turn leaves out the call without a candidate pool.
- Metrics.Metric.StateFor: the record behind a key is a value written back by its caller, so sharing of one record by two references is not captured.
- Candidates.CandidatePool.List: entries are values, so that the copies share no memory with the pool is not captured.
