# Verified model of ADAAD's rate limiters, ledgers and governance engines

Each module models one component of the repository as Dafny. A component whose methods update fields is a class; every
such method is proved equal to a step function on values, and the properties of whole runs, of every interleaving or of
every input are lemmas about those step functions.

| module | component |
|---|---|
| `HashChain` | the chained ledgers: entries that name their predecessor, and records that only carry a digest |
| `TumblingWindow`, `BeastMode` | the beast-mode limiter |
| `BeastAdapter`, `BeastSerial`, `BeastInterleaving`, `BeastHistory`, `BeastStale`, `BeastOverlap`, `BeastQuota` | its legacy adapter: one call, calls one at a time, calls interleaved, each decision from the calls before it, what stale copies spoil, exactly which interleavings are serial, and the mutation quota |
| `LruCache`, `LruAnswers`, `JsonText`, `JsonReader`, `StableHash`, `StableMeaning`, `CloneGraph`, `CloneIsomorphism` | the simulation utilities, and a reader of JSON texts after RFC 8259 to say what the hashed text means |
| `CelFeed`, `CelQueues`, `CelDelivery` | the CEL feed: optimistic emission on a chain, and delivery to subscriber queues |
| `CircuitBreaker`, `CircuitRuns`, `CircuitLog` | the governance circuit breaker, its runs with restarts and what they leave in its ledger |
| `Amendment`, `AmendmentRuns`, `AmendmentLog` | the self-amendment lifecycle, its runs over many proposal objects and what they write |
| `FeedbackIntegrator`, `FeedbackLog` | the feedback weight update, its ledger and its cycles |
| `ImportFixer`, `ImportShifts` | the import fixer's bottom-up edit engine, and what it does to removals that share lines |
| `Rounding`, `AdaptiveThrottle`, `ThrottleReadings`, `Text`, `ThrottleEngine`, `ThrottleLog` | the adaptive throttle's arithmetic, what a reading says, and its override machine and ledger |
| `Metering` | entitlement metering around an awaited handler |
| `Wrappers` | options and results |

Keyed digests are function parameters. A lemma that needs it requires `CollisionFree`: distinct inputs have distinct
digests and none is the genesis value; `CelFeed.CollisionFreeExists` gives an instance. Clock readings, random
identifiers, file contents at start and results of unseen code are parameters. Floating point numbers are `real`, except
the feed's timestamps, which are whole; rounding to decimals is modelled with ties to even.

## What the code does where its comments say otherwise

- The weight range [0.05, 0.60] holds before normalisation only. Afterwards the exact range is [1/49, 3/4], and both ends
  are reached from the default weights (`DocumentedRangeIsLeft`); `RangeLeftIff` decides it from the prior weights and
  the signal counts.
- `validate` checks no stage, so RATIFIED and REJECTED can be left (`LeavesTerminalIff`), and one proposal can be ratified
  any number of times (`PromotionFromAnyStage`).
- A proposal object handed out for content already proposed is ratified without a revert hash
  (`RevertHashIffFirstProposal`).
- The feed's fan-out is outside the chain lock. Delivery is in log order if no event is let in while another accepted
  one is still being fanned out (`OneAtATimeDeliversInOrder`); whenever one is, it can overtake
  (`HurriedEmitCanOvertake`).
- A cycle window of the base limiter that is older than the adapter's monotonic clock is dropped on migration, and with
  it a spent budget (`FirstCheckAgreesIff`).
- A circuit-breaker restart forgets the violation window; `RestartMattersIff` says when that changes the next decision.
- A quota throttle of the adapter cools down its own cycle check only through the migration of a record that has no
  monotonic cooldown yet (`QuotaThrottleAndCycleCheck`).
- The adapter's inherited mutation-quota check takes no lock, and `run_cycle` runs it after the locked cycle check. A
  quota check that saves a stale copy takes admitted cycles back (`StaleQuotaSaveErasesCycle`), and any number of them
  can be admitted on the last unit of the quota (`StaleQuotaChecksAdmitAny`). `RunIsSerialIff` gives, for every
  interleaving, the condition on each save under which the run is serial at every point, `MigratedRunIsSerialIff` in
  terms of the three entries that quota checks change.
- The adapter's bound of three quotas per mutation window holds on half-open intervals. With both ends included and
  equal timestamps it is four (`ClosedMutationBound`). Both bounds are reached (`HalfOpenBoundIsAttained`,
  `ClosedBoundIsAttained`).
- A copy that comes upon a tuple whose items are still being collected is not isomorphic to its source, and every other
  copy is (`CopyIsIsomorphicIff`). For one and the same cycle this depends on where it is entered
  (`OrderOfEntryDecides`).
- Imports that share a line give removals that share it, and each further removal takes a line that should stay
  (`SharedLineShifts`, `TwoImportsOnOneLine`).
- `/mutation/propose` is listed as billable and never metered, since metering starts at `/api/`; it is the only such
  request (`BillableEscapesIff`).
- A floor above 0.70, or one that six decimals round down, can make the throttle's own floor error reachable. Four
  composites decide whether any pressures raise it (`NeverUndercutsIff`).

## Model

| member | source | states |
|---|---|---|
| HashChain.HeadDeterminesLog | dorkllm/cel_feed.py:497-516 | two valid chains with the same head are the same chain: the head commits to every entry |
| HashChain.HeadsNeverRepeat | dorkllm/cel_feed.py:212-226 | no head value and no predecessor value occurs twice along a valid chain |
| HashChain.Verify | dorkllm/autonomous_constitutional_self_amendment.py:197-216 | the replay loop accepts exactly the valid ledgers; on refusal the count is the length of the intact prefix and the next entry is broken |
| HashChain.LinkedIffValid | dorkllm/adaptive_throttle.py:229-241 | a ledger that stores no predecessors is linked exactly when it is valid with them written out, with the same head |
| TumblingWindow.IntervalBound | app/beast_mode_loop.py:255-266 | a tumbling window with limit B admits at most (n + 1)B requests in any closed interval of at most n widths |
| BeastMode.BeastModeLoop.CheckLimits | app/beast_mode_loop.py:281-319 | leaves exactly the record and gives exactly the decision of the limit step: cooldown first, both windows refreshed, throttle at the budget, else one more cycle |
| BeastMode.BeastModeLoop.CheckMutationQuota | app/beast_mode_loop.py:321-353 | leaves exactly the record and gives exactly the decision of the quota step |
| BeastMode.BeastModeLoop.Throttle | app/beast_mode_loop.py:268-279 | saves the working copy with the new cooldown and reports the reason |
| BeastMode.StepIsWindowStep | app/beast_mode_loop.py:255-353 | each limiter call acts on the cycle window and on the mutation window as one visit to an independent tumbling window |
| BeastMode.CycleBound | app/beast_mode_loop.py:281-319 | over every run, any interval of at most n cycle windows admits at most (n + 1) budgets |
| BeastMode.MutationBound | app/beast_mode_loop.py:321-353 | over every run, any interval of at most n mutation windows admits at most (n + 1) quotas, so one window admits at most two |
| BeastMode.NoCycleDuringCooldown | app/beast_mode_loop.py:268-353 | after a budget or quota throttle at T every cycle asked for before T + cooldown is refused, whatever is called in between |
| BeastMode.CoolingIff | app/beast_mode_loop.py:281-353 | from a record that is not cooling, a cycle is refused as cooling if and only if an earlier budget or quota throttle was less than the cooldown before it |
| BeastAdapter.LegacyBeastModeAdapter.MigrateState | app/beast_mode_loop.py:801-831 | fills in exactly the missing monotonic keys and saves only then |
| BeastAdapter.LegacyBeastModeAdapter.CheckLimits | app/beast_mode_loop.py:853-907 | the body under the lock is migration followed by the monotonic decision, record and decision exactly |
| BeastInterleaving.LockedChecksAreSerial | app/beast_mode_loop.py:840-907 | every interleaving of any number of callers' lock, clock, load, save and unlock steps of the cycle check gives the decisions, and between calls the record, of running the calls one at a time in lock order |
| BeastInterleaving.CalmRunsAreSerial | app/beast_mode_loop.py:321-353 | the same with unlocked quota checks in the mixture, if every quota save keeps out of locked checks and computes what it would compute from the file |
| BeastInterleaving.UndisturbedIsCalm | app/beast_mode_loop.py:915-967 | those two conditions hold if nobody saves between the load and the save of a quota check, and no quota check saves between the load and the save of a locked one |
| BeastInterleaving.RunIsSerialIffCalm | app/beast_mode_loop.py:321-353 | of the runs in which no quota save falls into a locked check, exactly those are serial at every point whose quota saves are all up to date |
| BeastOverlap.RunIsSerialIff | app/beast_mode_loop.py:321-353 | every interleaving, from every record: it is serial at every point if and only if each quota save gives the decision of the serial record, and its outcome unless a locked check is under way, and each locked check gives its decision and leaves the file as it |
| BeastOverlap.MigratedRunIsSerialIff | app/beast_mode_loop.py:840-907 | from a migrated record the second half comes down to three entries: at the end of each locked check, what any number of quota checks did to them meanwhile is unchanged in its copy or overwritten by it anyway |
| BeastInterleaving.NoLostIncrement | app/beast_mode_loop.py:840-907 | from every start, resets and migration included, the saved count is the number of cycles admitted by all callers since the window was last opened, or the start count and all admissions if it never was |
| BeastInterleaving.EveryWindowWithinBudget | app/beast_mode_loop.py:853-907 | from the call that opens a monotonic window to the one that opens the next, at most the budget is admitted |
| BeastInterleaving.CountNeverExceedsBudget | app/beast_mode_loop.py:853-907 | a whole start count within the budget never exceeds it in any such run |
| BeastInterleaving.ConcurrentCycleBound | app/beast_mode_loop.py:840-907 | in every such run, quota checks included, an interval of at most n windows of the monotonic clock admits at most (n + 1) budgets |
| BeastSerial.SerialCycleBound | app/beast_mode_loop.py:801-907 | the same bound for cycle and quota checks run one at a time, from a record that may still need migration |
| BeastSerial.NoWindowExceedsBudget | app/beast_mode_loop.py:853-907 | no window admits more than the budget, for calls run one at a time |
| BeastHistory.CoolingIff | app/beast_mode_loop.py:857-907 | for cycle and quota calls run one at a time from a migrated record: a cycle check is refused as cooling if and only if an earlier budget throttle, or the cooldown of the record at the start, covers its reading |
| BeastHistory.NoCycleWhileCooling | app/beast_mode_loop.py:857-907 | from any record: after a budget throttle at T every cycle check read before T + cooldown is refused, whatever lies between |
| BeastHistory.HistoryDecides | app/beast_mode_loop.py:853-907 | from an unused record the calls before a call decide it, cycle or quota: cooldown, then what was admitted since the windows were last opened, each window on its own clock |
| BeastHistory.ConcurrentCooling | app/beast_mode_loop.py:840-907 | both of these for the log of every interleaving that meets the conditions of `CalmRunsAreSerial` |
| BeastHistory.FirstCheckAgreesIff | app/beast_mode_loop.py:801-831 | the first check of a record without monotonic keys decides as the base limiter would, except exactly where the base limiter finds its budget spent in a window that opened before the monotonic clock started |
| BeastHistory.ThrottleCoolsBaseLimiter | app/beast_mode_loop.py:879-882 | a budget throttle of the adapter makes the base limiter refuse until exactly wall time plus cooldown |
| BeastStale.StaleCopyMattersIff | app/beast_mode_loop.py:321-353 | a quota check from a stale copy gives another decision or record than from the file exactly when the two, refreshed, differ in more than the entry it overwrites |
| BeastStale.StaleCopyLosesCycles | app/beast_mode_loop.py:321-353 | a copy with another cycle count than the file always gives another record, with the copy's cycle count |
| BeastStale.QuotaSaveInsideCheckIff | app/beast_mode_loop.py:840-907 | a quota save inside a locked check of a migrated record never changes that check's decision, and leaves the serial record exactly when its changes survive or the check makes them too |
| BeastStale.OverlapRuns | app/beast_mode_loop.py:840-907 | the steps of one caller's quota check inside another caller's locked check, at any later time, end in the file and decisions of which the previous row speaks |
| BeastStale.AdmittedMutationInsideCheck | app/beast_mode_loop.py:853-907 | exactly when an admitted mutation that falls into a locked check is not lost |
| BeastStale.StaleQuotaSaveErasesCycle | app/beast_mode_loop.py:321-353 | from every record that admits a cycle, a quota check that loads before and saves after it leaves the record as if the cycle had never been |
| BeastStale.StaleQuotaChecksAdmitAny | app/beast_mode_loop.py:321-353 | from every record that admits a mutation, k callers that all load before the first saves are all admitted, and the record counts one |
| BeastQuota.AdapterMutationBound | app/beast_mode_loop.py:870-877 | for calls run one at a time, with two windows resetting one counter and clocks advancing together, n windows without their last instant admit at most 2n + 1 quotas, one window at most three |
| BeastQuota.HalfOpenBoundIsAttained | app/beast_mode_loop.py:870-877 | for every n but 0, quota and window a run that admits exactly 2n + 1 quotas in such an interval, so the bound is the least |
| BeastQuota.ClosedMutationBound | app/beast_mode_loop.py:870-877 | for calls run one at a time, n windows with both ends admit at most 2n + 2 quotas |
| BeastQuota.ClosedBoundIsAttained | app/beast_mode_loop.py:870-877 | for every n, quota and window a run that admits exactly 2n + 2 quotas, so the closed bound is the least |
| BeastQuota.ConcurrentMutationBound | app/beast_mode_loop.py:321-353 | both bounds for every interleaving that meets the two conditions of `CalmRunsAreSerial` and saves the calls in the order of their clock readings |
| BeastQuota.QuotaThrottleAndCycleCheck | app/beast_mode_loop.py:268-279 | exactly when a quota throttle makes the adapter's next cycle check refuse |
| LruCache.LRUCache.Get | app/simulation_utils.py:21-25 | returns the stored score and moves the key to the recent end, or changes nothing on a miss |
| LruCache.LRUCache.Set | app/simulation_utils.py:27-31 | stores, moves the key to the recent end and evicts the oldest key above the maximum |
| LruCache.StoredIsLastSet | app/simulation_utils.py:14-31 | over every run the size never exceeds the maximum and each stored value is the last one set for its key |
| LruCache.Inclusion | app/simulation_utils.py:14-31 | driven by the same operations, a smaller cache's key order is a subsequence of a larger one's, with equal values |
| LruAnswers.GetAnswers | app/simulation_utils.py:14-31 | after any operations `get` returns the value of the last `set` of the key if fewer than the maximum of other keys were set or found since the key last was, and nothing otherwise |
| JsonText.PrintInjective | app/simulation_utils.py:114-117 | the compact printer, with its escapes, numbers and separators, prints different JSON values as different texts |
| JsonText.PrintIsAscii | app/simulation_utils.py:114-117 | the text is printable ASCII whatever the value holds |
| JsonReader.ReadPrinted | app/simulation_utils.py:114-117 | a reader after the grammar of RFC 8259, sections 3 to 7, reads back exactly the value that was printed |
| StableHash.FromPairsKeeps | app/simulation_utils.py:103-108 | building an ordered dictionary from pairs with distinct keys keeps the sorted pairs as they are |
| StableHash.KeyInjective | app/simulation_utils.py:85-96 | type-prefixed dictionary keys are equal only for equal keys |
| StableHash.TupleIsNotDict | app/simulation_utils.py:84-111 | the normal form of a tuple is never that of a dictionary |
| StableHash.HashedTextIsCanonical | app/simulation_utils.py:84-117 | two values print the same text if and only if they are equal up to the order of dictionary entries, at any depth |
| StableMeaning.HashedTextMeans | app/simulation_utils.py:84-117 | read as JSON, with tagged objects as tuples and type-prefixed keys taken apart, the hashed text of a value says that value, up to the order of dictionary entries |
| StableHash.KeysInOrder | app/simulation_utils.py:103-108 | the members of a dictionary's normal form are in the lexicographic order of their keys, without repeats |
| StableHash.InsertionOrderIgnored | app/simulation_utils.py:84-117 | dictionaries built by inserting the same items in different orders print the same text |
| CloneGraph.Cloner.CloneDna | app/simulation_utils.py:34-66 | the imperative copier leaves exactly the store and returns exactly the value of the copying function |
| CloneGraph.Cloner.CloneValue | app/simulation_utils.py:42-64 | the memoised copy of one value terminates on every closed graph, cycles included |
| CloneIsomorphism.CopyIsIsomorphicIff | app/simulation_utils.py:42-64 | for every graph: a completed copy is isomorphic to its source under some correspondence if and only if copying came upon no tuple still open |
| CloneIsomorphism.CloneIsIsomorphic | app/simulation_utils.py:34-66 | the copy fails exactly when something unsupported is reachable, never changes the source, and is isomorphic to it when no cycle passes through a tuple |
| CloneIsomorphism.CopySharesNothing | app/simulation_utils.py:34-66 | everything reachable from an isomorphic copy is new |
| CloneIsomorphism.OneCopyEach | app/simulation_utils.py:42-64 | one new object for each reachable object, and one working list for each reachable tuple: nothing is copied twice |
| CloneIsomorphism.OrderOfEntryDecides | app/simulation_utils.py:56-60 | a tuple and a list that contain each other are copied faithfully if and only if they are entered through the list |
| CelFeed.CELFeedEngine.Emit | dorkllm/cel_feed.py:199-232 | signs and appends on the current head or refuses without effect; an accepted event is at the end of every subscribed queue that held fewer than 512, and no other queue changes |
| CelFeed.PutAllDelivers | dorkllm/cel_feed.py:332-341 | offering an event to distinct subscribers appends it to exactly those of their queues that hold fewer than 512 events |
| CelDelivery.UninterruptedEmitIsMethod | dorkllm/cel_feed.py:199-232 | an emitter's separate steps, run without interruption, leave the chain and in every queue the events that the method leaves |
| CelQueues.UnsubscribeRemoves | dorkllm/cel_feed.py:324-330 | unsubscribing takes the queue off the list and leaves the others in order |
| CelFeed.CELFeedEngine.VerifyChain | dorkllm/cel_feed.py:497-516 | accepts exactly the valid chains |
| CelFeed.CanonicalDetermines | dorkllm/cel_feed.py:112-128 | the canonical text that is signed determines every field of the event and its predecessor |
| CelFeed.CanonicalReads | dorkllm/cel_feed.py:112-128 | read as JSON, the signed text shows each field and the predecessor under its own name |
| CelFeed.SigningIsCollisionFree | dorkllm/cel_feed.py:112-128 | a digest of texts without collisions makes a digest of events without collisions |
| CelFeed.InterleavingsKeepChain | dorkllm/cel_feed.py:199-257 | under every interleaving of builds and emits by any number of emitters the log only grows and is a valid chain whose last digest is the head |
| CelFeed.OneEventPerHead | dorkllm/cel_feed.py:212-226 | in every run at most one event is accepted for each predecessor value |
| CelFeed.AcceptedIffNothingInBetween | dorkllm/cel_feed.py:199-226 | an event built on the head is accepted later, after any steps of any emitters, if and only if its status is valid and nothing was accepted in between; it is then logged with its own fields, predecessor and digest, and a refused one changes nothing |
| CelFeed.SubscribersNeverAffectChain | dorkllm/cel_feed.py:290-351 | erasing every subscribe, unsubscribe and consume step from a run leaves log and head unchanged |
| CelQueues.EachQueueReceivesLoggedEventsOnce | dorkllm/cel_feed.py:290-351 | under every interleaving each queue holds at most 512 events and receives only logged events, each at most once |
| CelQueues.OneAtATimeDeliversInOrder | dorkllm/cel_feed.py:212-230 | for any number of emitters: if no event is let in while another accepted one has subscribers still to serve, each queue receives a subsequence of the log in log order |
| CelQueues.SingleEmitterDeliversInOrder | dorkllm/cel_feed.py:229-230 | with one emitter each queue receives a subsequence of the log in log order |
| CelQueues.HurriedEmitCanOvertake | dorkllm/cel_feed.py:212-230 | from every state of every run and for any two emitters: an event let in while the other's has a subscriber still to serve can reach a queue first |
| CircuitBreaker.ViolationWindow.Push | dorkllm/circuit_breaker.py:191-196 | the window is the last `size` namespaces pushed |
| CircuitBreaker.ViolationWindow.ShouldTrip | dorkllm/circuit_breaker.py:215-230 | true exactly when one namespace fills the violation threshold or the distinct namespaces fill theirs, the empty window included |
| CircuitBreaker.CircuitBreakerEngine.RecordViolation | dorkllm/circuit_breaker.py:303-343 | refuses without effect outside the read-only guard, else records the violation and trips exactly when closed and cascading |
| CircuitBreaker.CircuitBreakerEngine.ResetCircuit | dorkllm/circuit_breaker.py:345-365 | refuses a wrong token without effect, else closes, clears the window and records it |
| CircuitBreaker.CircuitBreakerEngine.VerifyLedgerChain | dorkllm/circuit_breaker.py:388-431 | accepts exactly the valid ledgers |
| CircuitRuns.ReplayIsLive | dorkllm/circuit_breaker.py:475-493 | after every run, through any number of restarts, replaying the ledger gives exactly the live state, counter and last hash, and the ledger verifies |
| CircuitRuns.WindowIsSince | dorkllm/circuit_breaker.py:178-233 | the window is the last N namespaces of the violations since the last reset or start |
| CircuitRuns.OpenIffCascaded | dorkllm/circuit_breaker.py:303-365 | the circuit is open if and only if a cascade happened that no reset followed |
| CircuitRuns.TripsExactlyAtFirstCascade | dorkllm/circuit_breaker.py:215-230 | a violation trips the breaker if and only if it is the first cascade since the last reset |
| CircuitRuns.ResetBetweenTrips | dorkllm/circuit_breaker.py:437-447 | in every run, restarts included, two TRIP rows have a RESET row between them |
| CircuitRuns.RestartMattersIff | dorkllm/circuit_breaker.py:475-493 | after every run, a restart changes whether the next violation trips if and only if the circuit is closed, the violation completes a cascade with those before it, and both thresholds exceed one |
| CircuitLog.LedgerTellsCalls | dorkllm/circuit_breaker.py:303-365 | over every run: the ledger is exactly the rows told by the calls, a violation row with its namespace, id, circuit state and window, a trip row at each first cascade and a reset row at each right token; the counters count since the last start |
| Amendment.AmendmentEngine.Propose | dorkllm/autonomous_constitutional_self_amendment.py:269-341 | below quorum an error; known content gives a fresh object with the first id and writes nothing; else one counted ledger entry and a saved state |
| Amendment.AmendmentEngine.Validate | dorkllm/autonomous_constitutional_self_amendment.py:343-411 | passes if and only if there are at least three evidence ids, the score is at least 0.72, and the amendment is soft or cites every invariant of the registry whose name up to its first dash occurs in its text; otherwise rejects with every reason; one entry either way |
| Amendment.ReasonsIff | dorkllm/autonomous_constitutional_self_amendment.py:355-374 | the reasons to reject name exactly the conditions that fail |
| Amendment.AmendmentEngine.Simulate | dorkllm/autonomous_constitutional_self_amendment.py:413-484 | refused unless VALIDATED; passes exactly when the dry run does and a soft amendment affects no hard invariant |
| Amendment.AmendmentEngine.Ratify | dorkllm/autonomous_constitutional_self_amendment.py:523-566 | a blank signature or a stage other than PENDING_H0 is refused without effect; else the signed entry is appended and counted |
| Amendment.AmendmentEngine.LoadExisting | dorkllm/autonomous_constitutional_self_amendment.py:219-232 | finds the first entry with the content hash, or none |
| AmendmentRuns.LedgerIsSealed | dorkllm/autonomous_constitutional_self_amendment.py:185-232 | over every run and reopening: the ledger verifies, the state file is current, the three totals count their events, and no two PROPOSED entries share a content hash |
| AmendmentRuns.ProposingAgainReturnsSameId | dorkllm/autonomous_constitutional_self_amendment.py:307-315 | proposing known content any number of calls and reopenings later returns the first id, changes nothing and yields a PROPOSED object without revert hash |
| AmendmentRuns.RatifiedOnlyInOrder | dorkllm/autonomous_constitutional_self_amendment.py:343-566 | in every run a RATIFIED event directly follows its object's VALIDATED, SIMULATED and PENDING_H0 events, with a signature, a carried score of at least 0.72, at least three evidence ids, if soft no hard invariant affected, and if hard no mentioned invariant uncited of the registry it was validated under |
| AmendmentRuns.LeavesTerminalIff | dorkllm/autonomous_constitutional_self_amendment.py:343-411 | exactly which calls move an object out of RATIFIED or REJECTED |
| AmendmentRuns.RejectedUntilValidated | dorkllm/autonomous_constitutional_self_amendment.py:413-585 | a rejected object stays rejected over every run that does not validate it again |
| AmendmentRuns.PromotionFromAnyStage | dorkllm/autonomous_constitutional_self_amendment.py:343-566 | from any stage, final ones included, four calls ratify an object in good standing and count it once more |
| AmendmentRuns.RevertHashIffFirstProposal | dorkllm/autonomous_constitutional_self_amendment.py:309-317 | a RATIFIED event carries the hash of the replaced text if and only if its object made the first proposal |
| AmendmentLog.ObjectsMirrorRecords | dorkllm/autonomous_constitutional_self_amendment.py:343-585 | over every run each record of an object repeats its id, content, class and evidence, and its signature, reasons and score are those of its last ratification, rejection and validation |
| AmendmentLog.CallWritesOneRecord | dorkllm/autonomous_constitutional_self_amendment.py:343-585 | each call writes the one record it calls for and takes the object to that stage, or changes nothing at all |
| AmendmentLog.ProposeWrites | dorkllm/autonomous_constitutional_self_amendment.py:269-341 | exactly when a proposal writes its record, and what it says |
| AmendmentLog.StateNamesLatest | dorkllm/autonomous_constitutional_self_amendment.py:318-341 | over every run the state, saved and in memory, names the latest proposal of the ledger |
| FeedbackIntegrator.ApplySignals | dorkllm/cfi_feedback_integrator.py:395-448 | never raises; returns the scaled, clamped and normalised weights, the changes and the three counts |
| FeedbackIntegrator.ExactRange | dorkllm/cfi_feedback_integrator.py:429-446 | for every prior and signal list the new weights sum to one and lie in [1/49, 3/4]; the clamped ones lie in [0.05, 0.60] |
| FeedbackIntegrator.RangeLeftIff | dorkllm/cfi_feedback_integrator.py:407-437 | decided from the prior weights and the counts per axis: an axis scaled to the floor or below leaves the range exactly when the clamped total exceeds one, one scaled to the ceiling or above exactly when it is less than one, and any other by its own foreseen value |
| FeedbackIntegrator.NeverLeftOnBothSides | dorkllm/cfi_feedback_integrator.py:429-437 | one update never leaves the documented range on both sides |
| FeedbackIntegrator.DocumentedRangeIsLeft | dorkllm/cfi_feedback_integrator.py:67-86 | signals on the default weights that reach 1/49 and 3/4 |
| FeedbackIntegrator.ScaledIsPowers | dorkllm/cfi_feedback_integrator.py:411-427 | reading signals one by one scales an axis by 1.1 per accepted and 0.9 per rejected signal of that axis |
| FeedbackIntegrator.OrderAndDeferredIgnored | dorkllm/cfi_feedback_integrator.py:411-427 | permuting the signals or dropping deferred ones changes no weight |
| FeedbackIntegrator.OneMoreSignal | dorkllm/cfi_feedback_integrator.py:407-437 | one more ACCEPTED signal anywhere never lowers its axis nor raises another, through clamp and normalisation; REJECTED dually |
| FeedbackIntegrator.CFIFeedbackIntegrator.Integrate | dorkllm/cfi_feedback_integrator.py:515-586 | a used id is refused without effect; else one linked record and the snapshot, computed from the current weights |
| FeedbackIntegrator.CFIFeedbackIntegrator.VerifyChain | dorkllm/cfi_feedback_integrator.py:306-337 | accepts exactly when every stored digest agrees in its first 24 characters with the recomputed chain, so every linked ledger |
| FeedbackIntegrator.RunsStaySound | dorkllm/cfi_feedback_integrator.py:515-586 | over every run: the ledger is linked, ids are unique, each record starts from the weights of the one before and ends in the exact range, and the snapshot is the last record's |
| FeedbackIntegrator.RepeatsChangeNothing | dorkllm/cfi_feedback_integrator.py:544-551 | a run equals the run of its first uses of each id, in ledger and in current weights |
| FeedbackLog.IntegrateTells | dorkllm/cfi_feedback_integrator.py:515-586 | a used id leaves nothing; a new one leaves one record with its id, its signals counted by disposition, its prior and the moves of the weights |
| FeedbackLog.LedgerTellsCalls | dorkllm/cfi_feedback_integrator.py:515-586 | over every run the ledger tells the first use of each id in order, each from the weights that the ones before led to |
| FeedbackLog.AcceptsIff | dorkllm/cfi_feedback_integrator.py:306-337 | the walk accepts exactly the ledgers whose stored digests agree with the recomputed ones in their first 24 characters |
| FeedbackLog.AlteredRecordIsNoticed | dorkllm/cfi_feedback_integrator.py:306-337 | altering a record is noticed unless its new digest agrees with the stored one in 24 characters |
| ImportFixer.ApplyEdits | fix_import_boundaries.py:167-172 | the sorted splice loop; equal to one pass over the original whenever the edits do not meet |
| ImportFixer.SortEdits | fix_import_boundaries.py:168-168 | a stable descending order: a permutation of the edits by line, removals before insertions |
| ImportFixer.SortedKeepsInsertions | fix_import_boundaries.py:168-172 | sorting keeps the order of insertions at one line, which splicing then reverses |
| ImportFixer.BottomUpIsOnePass | fix_import_boundaries.py:167-172 | bottom-up splicing equals one simultaneous pass over the original lines |
| ImportFixer.EditsConserveLines | fix_import_boundaries.py:167-172 | result and removed lines together are the original and the inserted lines, each with its multiplicity |
| ImportShifts.SplicingOnlyLoses | fix_import_boundaries.py:160-172 | whatever lines the removals share: splicing gives the one-pass result with some lines left out |
| ImportShifts.SpliceIsPassIff | fix_import_boundaries.py:160-172 | for every file and every edit list with insertions outside removals: splicing is the pass if and only if two numbers of lines, computed from the ranges alone, agree |
| ImportShifts.SharedLineShifts | fix_import_boundaries.py:160-172 | with as many lines behind each removal as are removed in all, splicing is the pass if and only if no two removals share a line, and otherwise loses one further line for each time a line is shared |
| ImportShifts.TwoImportsOnOneLine | fix_import_boundaries.py:158-161 | in every file with at least two lines behind: two imports on a line of their own that move to consumers further down take exactly one line that should stay |
| Rounding.RoundMonotone | dorkllm/adaptive_throttle.py:306-314 | decimal rounding is monotone |
| Rounding.RoundFixesGrid | dorkllm/adaptive_throttle.py:306-314 | rounding leaves a number alone if and only if it is on the grid |
| Rounding.RoundIff | dorkllm/adaptive_throttle.py:306-314 | rounding gives the nearest grid point, the even one of two, and no other |
| AdaptiveThrottle.MultiplierAntitone | dorkllm/adaptive_throttle.py:289-314 | for every pair of thresholds the rounded multiplier falls as the composite rises, if the floor is at most 0.70 |
| AdaptiveThrottle.AcceptedAntitone | dorkllm/adaptive_throttle.py:374-387 | above a floor of 0.70, where the map rises again, any two multipliers that pass the floor check still fall with the composite |
| AdaptiveThrottle.MorePressureNeverEases | dorkllm/adaptive_throttle.py:336-418 | raising any domain's pressure never raises the multiplier nor eases the regime, all roundings included, for every floor and every pair of thresholds |
| AdaptiveThrottle.StaysAboveFloor | dorkllm/adaptive_throttle.py:374-387 | with an on-grid floor of at most 0.70 the floor error is unreachable and the multiplier lies in [floor, 1] |
| AdaptiveThrottle.NeverUndercutsIff | dorkllm/adaptive_throttle.py:356-387 | for every configuration whose weights do not cancel: no pressures, or none within [0, 1], make `compute` raise the floor error if and only if the multiplier reaches the floor at composites 0 and 1 and at the two neighbours of the first threshold with eight decimals |
| AdaptiveThrottle.NeverUndercutsInsideScale | dorkllm/adaptive_throttle.py:356-387 | with the first threshold strictly between 0 and 1 and the second below 1: exactly when six decimals do not round the floor down and, if it is above 0.70, the multiplier reaches it at those two neighbours; never above 0.70 if the threshold has no more than eight decimals |
| AdaptiveThrottle.NeverUndercutsBeyondScale | dorkllm/adaptive_throttle.py:356-387 | with the first threshold 1 or more: exactly when the multiplier at full pressure, rounded, is at least the floor |
| AdaptiveThrottle.ScalingChangesNothing | dorkllm/adaptive_throttle.py:356-372 | scaling all weights by one positive factor changes no reading and no error |
| ThrottleReadings.CompositeIsWeightedMean | dorkllm/adaptive_throttle.py:356-369 | without pressure the composite is 0, and moving one domain's pressure moves it by that domain's share of the weights |
| ThrottleReadings.ContributionsAddUp | dorkllm/adaptive_throttle.py:356-369 | a reading has one contribution per domain, and they make up the composite up to the rounding of each to eight decimals |
| ThrottleReadings.ContributionIsShare | dorkllm/adaptive_throttle.py:364-367 | each contribution is the domain's pressure times its share of the weights, to eight decimals |
| ThrottleReadings.LineIsInterpolated | dorkllm/adaptive_throttle.py:289-314 | with the thresholds in order the map is straight from 1 to 0.70 at the first and on to the floor at the second |
| ThrottleReadings.RegimeByPressure | dorkllm/adaptive_throttle.py:317-333 | the composites at which a reading is OPEN, and those at which it is RESTRICT, exactly, the six decimals of the multiplier allowed for |
| ThrottleEngine.AMTLedger.VerifyChain | dorkllm/adaptive_throttle.py:229-241 | accepts exactly the linked ledgers |
| ThrottleEngine.Engine.Compute | dorkllm/adaptive_throttle.py:336-414 | the two loops and the branches compute exactly the reading, which is recorded before it is returned; an error changes nothing |
| ThrottleEngine.Engine.EngageEmergencyOverride | dorkllm/adaptive_throttle.py:420-431 | a blank operator is refused without effect; else the flag is set and an ENGAGE record is chained |
| ThrottleEngine.Engine.ReconfigureWeights | dorkllm/adaptive_throttle.py:453-477 | a blank operator or a zero total is refused without effect; else weights and ledger change |
| ThrottleEngine.Engine.ThrottleHistory | dorkllm/adaptive_throttle.py:488-504 | returns the throttle events of the ledger, in order |
| ThrottleEngine.EngagedIffLatest | dorkllm/adaptive_throttle.py:420-444 | the override is engaged if and only if some ENGAGE record has no later override record |
| ThrottleEngine.RunsKeep | dorkllm/adaptive_throttle.py:196-241 | over every run the ledger is linked and numbered from one, operators are not blank, logged totals are right and not zero, and the flag agrees with the ledger |
| ThrottleEngine.ZeroExactlyWhenEngaged | dorkllm/adaptive_throttle.py:374-404 | with a positive floor a logged multiplier is 0, and its regime OVERRIDE, if and only if the latest override record before it is ENGAGE |
| ThrottleEngine.HistoryIsWhatWasReturned | dorkllm/adaptive_throttle.py:488-504 | the history read from the ledger is the list of snapshots that `compute` returned |
| ThrottleLog.LedgerTellsCalls | dorkllm/adaptive_throttle.py:336-477 | over every run the ledger holds exactly the events told by the calls, and weights, flag and operator are those of the last accepted ones |
| Text.StripIsEmptyIffBlank | dorkllm/adaptive_throttle.py:422-425 | a text is empty once stripped if and only if it is blank |
| Text.StripCuts | dorkllm/adaptive_throttle.py:422-425 | stripping cuts blanks off both ends and nothing else |
| Metering.Metrics.Admit | server.py:562-622 | reads the usage and decides exactly as the decision function: users, seats, feature, then event limit |
| Metering.Metrics.Settle | server.py:624-626 | counts the event, user and seat after a response below 400, and nothing otherwise |
| Metering.Metrics.RegisterBillableUsage | runtime/metrics.py:198-219 | adds the actors to their sets, keeps the two counters equal to the set sizes, and bumps the event |
| Metering.DecisionByCounting | server.py:561-622 | a metered request is denied for the first of users, seats, feature and event of which counting it would give the plan too many, and otherwise admitted with what is then counted |
| Metering.CounterBound | server.py:561-642 | whatever plan each request names, a counter never exceeds its start or L - 1 + K, with at most K requests in flight and L the largest limit named, and never moves if every limit is 0 |
| Metering.ActorBound | server.py:583-599 | the same bound for distinct users and for distinct seats |
| Metering.BoundIsAttained | server.py:561-642 | for every plan and K a run with K in flight that reaches L - 1 + K |
| Metering.BillableEscapesIff | server.py:479-487 | of all requests that the event table makes billable exactly `POST /mutation/propose` is never metered |

## Left out

- Floating-point rounding of sums, products and quotients: numbers are exact reals, and only explicit `round` calls round.
- File-system failures, partial writes, corrupt or hand-edited JSON lines and unreadable state files: a file holds what was last written.
- Timestamps, random identifiers, digest algorithms and keys: parameters, or not part of the modelled record.
- HashChain.Verify: compares the whole digest and the predecessor in one test, so it does not model which of the two messages a broken entry gets.
- BeastInterleaving.LockedChecksAreSerial: assumes that all clock readings of one call are equal, although migration reads the clocks again, and that file locks exclude.
- BeastHistory.HistoryDecides: starts from an unused migrated record; from others, what their keys hold at the start decides as well.
- JsonReader.ReadPrinted: the reader takes no insignificant whitespace, fractions or exponents, none of which the printer writes.
- BeastStale.QuotaSaveInsideCheckIff: is about a migrated record, as every record is after the first locked check.
- BeastQuota.ConcurrentMutationBound: assumes that the calls are saved in the order of their clock readings, which no lock enforces for the quota check, and that both clocks advance together.
- The clone's environment switch to `copy.deepcopy`, and sharing among immutable atoms.
- StableHash.HashedTextIsCanonical: covers null, booleans, integers, strings, lists, tuples and dictionaries, not floats, dataclasses or other objects, lone surrogates, or the interpreter's limit on integer digits.
- The SHA-256 step of `stable_hash` and of the other hashes.
- CelFeed.CanonicalDetermines: event timestamps are whole numbers and payloads have no fractions, since the printer of `JsonText` has integers only.
- The feed's stream generators, the loop-closed removal of queues, and the fields of an event other than those signed and linked.
- The circuit breaker's status and health reports, and the text of event identifiers.
- The amendment's simulation result field, its report texts and the title and section copied into later events.
- Direct mutation of proposals, events or configurations by callers outside the modelled methods.
- FeedbackIntegrator.CFIFeedbackIntegrator.VerifyChain: compares 24 characters as the code does, so it does not show that an altered later part of a digest is noticed.
- FeedbackIntegrator.ApplySignals: weights always have the five canonical axes, as `load_current_weights` guarantees; mapping an invariant name to its axis, and the fallback for other axes, are not part of this model.
- The feedback ledger's tail reader, which looks at the last 4096 bytes only: a record is taken to be shorter than that.
- ImportFixer.ApplyEdits: takes the list of edits as input; finding imports and consumers in the syntax tree, the compile check and the rollback are not part of this model.
- The adaptive throttle's ingestion filter and the choice of configuration at start.
- ThrottleEngine.ZeroExactlyWhenEngaged: is about an engine with a ledger of its own; a new engine on an old ledger starts released.
- Metering.CounterBound: the reset of the counters and the conversion-stage metrics are not part of this model.
- All routing, dashboards, command lines and onboarding, and the cycle execution, promotion and mutation modules: input, output and calls into code with no invariant of their own here.
- The other chained ledgers of the repository: they would repeat the lemmas of `HashChain`.
