# Autarch: a model of its ledger, authority, review and resilience

This project models the parts of Autarch whose correctness spans several functions, threads
or machines, and proves what they are for. Every file is one module.

- **The mesh ledger.** `Ledger` is one node's table of sealed rows, in which the rows of each
  origin form a hash chain of their own. `MeshProtocol` lets any number of nodes record, export,
  merge and redact in any interleaving, down to the gap between a writer's read of the last
  seal and its insert. `Gossip` is the convergence of rows and policies under whole-bundle
  exchange, `MeshConvergence` that exchange started from any stores the protocol can reach,
  `ChainBinding` what a last seal pins down, and `Merging` exactly which tables can be merged
  without breaking a chain.
- **Resilience.** `Limiter` (token buckets with their adaptive pace), `Breaker`, `Retry` (the
  call loop, interleaved with other callers), `Executor` (the self-tuning worker pool) and
  `ExecutorRuns` (what its outcomes and its pace say of the tasks' answers).
  Every region under a lock is one atomic step; time and levels are real numbers.
- **The review store.** `ReviewStore` is its transactions, `ReviewRules` what each of them does
  to the tables, `ReviewRuns` what a sequence of them keeps, `ReviewLog` the replay of the event
  log, `ReviewDecisions`, `ReviewTimes` and `ReviewLinks` what a status, an expiry and a
  supersession mean.
- **Authority.** `Paths` and `Scoping` are the constraints and how they narrow, `Delegation` the
  kernel and attenuation, `Kernel` what the two let through, key by key, `Policy` how policies
  combine, `Guarantees` the static prover, `Pipeline` the agent's `run` and `enact`, and `Factory`
  the two proofs around compiling a pack.
- **Scheduling, budget, text.** `Waves` (Kahn's algorithm with its degraded case),
  `SharedBudget` (the check and the charge as two critical sections) and `Scanner` (the
  balanced-object scanner against every JSON text).

State that Autarch updates in place is a class here, and each of its methods is proved against
a function on values; what holds over whole runs is proved about those functions, and what each
of them computes is said again without it, of the inputs themselves.

## Where the code and its documentation part

The model follows the code.

- Attenuation is documented never to widen. `narrow_scope_value` lets a child's prohibitions
  and patterns replace its parent's (autarch/scoping.py:319-321), an empty allowlist is a
  subset of any allowlist but is read as no constraint (autarch/scoping.py:221-226), and a limit
  of NaN is not greater than any limit but is exceeded by no amount (autarch/delegation.py:92-95,
  autarch/scoping.py:205). Module `Scoping` gives, key by key, the exact condition under which the
  narrowing is real; `Delegation.DroppedProhibitionWidens`, `Delegation.EmptiedAllowlistWidens`
  and `Delegation.NaNLimitWidens` are instances where it is not.
- Under that condition invariant I3 of autarch/verification.py holds grant by grant, not list by
  list: the kernel stops at the first matching name, so a parent may be refused what its child
  is allowed (`Delegation.FirstMatchCanRefuse`). It is not refused whenever the first matching
  grant accepts what any later one accepts (`Delegation.KernelAgrees`), of which
  `Delegation.UnambiguousKernelAgrees` is the case with one matching grant. For a list in which
  every grant falls within itself and none within an earlier one, such as a wildcard followed by
  looser specific grants, `Delegation.KernelAgreesIff` makes this an equivalence.
- A request quota is documented as never exceeded (autarch/resilience.py:143-149). The bucket
  starts full and refills at the quota, so up to twice the quota passes in a minute:
  `Limiter.WindowBound` is what holds, `Limiter.WindowBoundIsSharp` shows that no less does, and
  `Limiter.ThreeInThirtySeconds` is an instance. `Limiter.QuotaKeptIff` says exactly which minutes
  keep to the quota: those that begin with an empty bucket.
- Merging two ledgers is documented never to break integrity (autarch/memory.py:9-13). Every
  workspace records under the origin "local" until it joins a realm (autarch/cli.py:138), and
  two such stores merge into one that `verify_chain` refuses (`Merging.SharedOriginBreaksChain`).
  `Merging.MergeVerifiesIff` says exactly which tables merge soundly; the protocol theorems are
  about origins with one store and one writer at a time.
- `half_open_max` is documented as the number of concurrent trial calls. The counter keeps to
  it, but a call let through before the circuit opened also decrements the counter when it
  settles (`Breaker.TwoTrialsInOneSlot`). `Breaker.LimitHoldsIffNoneInFlight` says exactly when
  the limit is met: when the period begins with no earlier call still in flight.
- A shared ceiling can be exceeded by parallel agents. p workers exceed it by at most p - 1 times
  the dearest action that can still pass a check, which costs no more than what was left at the
  start (`SharedBudget.OvershootIsBounded`), and by exactly that in some run
  (`SharedBudget.OvershootIsReached`). `SharedBudget.CeilingKeptIff` says exactly when a ceiling is
  kept: with a single worker, with actions that cost nothing, or with nothing left to spend.
- The path prefix "/" contains only itself (`Paths.RootContainsOnlyItself`), and a relative name
  such as "..x" is refused as if it went up (`Paths.DottedNameIsRefused`);
  `Paths.TextTestExactIff` and `Paths.UpwardExactIff` say when the string tests are right.

## Model

| member | source | states |
|---|---|---|
| `Ledger.LastSealEndsChain` | autarch/memory.py:114-121 | the seal that a writer reads, newest row first, is the seal at the end of its origin's own chain |
| `Ledger.WhyMemory.Record` | autarch/memory.py:123-155 | a record under a fresh id continues its author's chain; a used id changes nothing; a verifiable table stays verifiable |
| `Ledger.WhyMemory.ImportRow` | autarch/memory.py:205-235 | a row is taken exactly when its id is new, unchanged and at the end |
| `Ledger.WhyMemory.ImportBundle` | autarch/mesh.py:310-341 | the merge loop leaves the fold of the bundle and the fold of its counters: a held row is skipped, one failing its own seal rejected, any other added |
| `Ledger.TallyIsExact` | autarch/mesh.py:324-338 | every incoming row is counted once, what was added is what the table gained, the rejected fail their seal, and a row the table lacks in the end is among them |
| `Ledger.MergeTakes` | autarch/mesh.py:322-335 | a merge takes exactly the rows whose seal, if any, is the hash of their content and whose id is new when they come up; the ids reported as rejected are those of new rows that fail their seal |
| `Ledger.ImportAllExtends` | autarch/mesh.py:310-341 | a merge only appends: rows already held keep place and content |
| `Ledger.ImportAllIds` | autarch/mesh.py:310-341 | a merge is a union by record id when every incoming seal is right |
| `Ledger.ImportAllDistinct` | autarch/memory.py:205-235 | no merge ever stores an id twice |
| `Ledger.WhyMemory.VerifyChain` | autarch/memory.py:279-301 | the one-pass walk with a dictionary answers exactly what checking each origin's chain by itself would, and names the first row that breaks one |
| `Ledger.VerifiedAppend` | autarch/memory.py:279-301 | growing a table by a sealed row keeps it verifiable if and only if the row continues its own origin's chain |
| `Ledger.VerifiedSkipsLegacy` | autarch/memory.py:279-301 | an unsealed row never changes the verdict |
| `Ledger.VerifiedPrefix` | autarch/memory.py:279-301 | no appended row repairs a broken table |
| `Ledger.WhyMemory.Redact` | autarch/memory.py:339-358 | redaction writes the overlay and nothing else, for known ids only |
| `MeshProtocol.LedgersStayVerifiable` | autarch/memory.py:279-301 | over every interleaving of tip reads, inserts, exports, late and partial merges and redactions, with one store and one writer at a time for each origin: every node holds of every origin a prefix of its author's chain, and the chain check accepts every node's table |
| `MeshProtocol.AuthorsKeepTheirLog` | autarch/memory.py:123-155 | an author's store always holds everything the author recorded |
| `MeshProtocol.NoForksNoRejections` | autarch/mesh.py:322-335 | honest nodes never reject a row, and two nodes' views of an origin never fork |
| `MeshProtocol.SameIdsSameChains` | autarch/mesh.py:310-341 | two nodes holding the same ids hold, of each origin, the same rows in the same order |
| `MeshProtocol.SharedIdBreaksChain` | autarch/mesh.py:322-335 | the unique-id hypothesis is needed: two authors that share one id merge into a table the chain check refuses |
| `MeshProtocol.RacingWritersBreakChain` | autarch/memory.py:123-155 | the single writer is needed: of two rows sealed after one reading of the last seal the second breaks the chain |
| `Merging.SharedOriginBreaksChain` | autarch/memory.py:44-48 | the single store is needed: two verified tables recorded under one origin, sharing no id, merge into a table the chain check refuses |
| `Merging.MergeVerifiesIff` | autarch/memory.py:9-13 | exactly when a merge keeps integrity: of two verified tables the merged one verifies if and only if, of every origin, one holds a prefix of what the other holds |
| `Merging.JoinLinkedIff` | autarch/memory.py:279-301 | continuing one chain of an origin by the rows it lacked of another keeps it linked exactly when one of the two begins the other |
| `Merging.MergedProjection` | autarch/mesh.py:322-335 | a merge gives an origin the rows it had and then those it lacked |
| `MeshProtocol.InsertKeepsInv` | autarch/orchestration.py:479-488 | writers sharing a store under distinct origins may interleave their tip reads and inserts |
| `MeshProtocol.MergeRowKeepsInv` | autarch/mesh.py:322-335 | one row of a merge, whatever happened since the merge began, keeps the whole invariant |
| `MeshProtocol.RecordingRecords` | autarch/memory.py:123-155 | a tip read and an insert, undisturbed, append one row to the author's log and store, chained to the last seal |
| `MeshProtocol.MergingImports` | autarch/mesh.py:322-335 | the rows of a bundle handled one by one, undisturbed, are the import of the bundle |
| `MeshProtocol.ExportIsReceived` | autarch/mesh.py:310-341 | an exported store that is received opens a merge of all its rows |
| `MeshProtocol.RedactingMarks` | autarch/memory.py:339-358 | a redaction marks a field of a record the node holds and touches neither rows nor chains |
| `MeshProtocol.RecordingIsPossible` | autarch/memory.py:123-155 | wherever a run has come an author without a draft can go on recording, after everything recorded so far |
| `MeshProtocol.DeliveryIsPossible` | autarch/mesh.py:310-341 | from every reachable state a run goes on to one in which a given node also holds all that another one held, and nothing else has changed |
| `ChainBinding.SealedTextDecodes` | autarch/memory.py:29-30 | the sealed text, previous seal and payload run together, has one reading |
| `ChainBinding.UnshapedTextIsAmbiguous` | autarch/memory.py:29-30 | without the shape of a payload that text has two readings with the same seal |
| `ChainBinding.SameTipSameHistory` | autarch/memory.py:29-30 | two chains that have reached one seal agree on every payload before it |
| `ChainBinding.LastSealBindsHistory` | autarch/memory.py:279-301 | two accepted tables with the same last seal for an origin hold the same payload sequence of it |
| `ChainBinding.RewritingIsDetected` | autarch/memory.py:279-301 | altering, dropping, reordering or inserting rows of an origin while keeping its last seal is refused |
| `Gossip.Mesh.Transmit` | autarch/transport.py:169-179 | one bundle one way: the receiver's rows and policies after it, and how many rows it gained |
| `Gossip.Mesh.Contact` | autarch/transport.py:233-240 | a peer out of reach changes nothing; one whose pull fails has taken our bundle and counts nothing; one that answers is synced both ways |
| `Gossip.Mesh.Round` | autarch/transport.py:223-241 | a round contacts every peer in order, tolerates the ones that fail wholly or half way, reports one entry per peer, and gains exactly what the entries say was pulled |
| `Gossip.RoundIsSchedule` | autarch/transport.py:223-241 | a round is the schedule of the bundles that get through |
| `Gossip.Realm.MergePolicies` | autarch/mesh.py:298-307 | the loop leaves the fold of the incoming policies and counts what it added |
| `Gossip.MergeListIsUnion` | autarch/mesh.py:298-307 | that fold is a grow-only union by name: nothing moves, and only incoming policies with new names are added, once |
| `Gossip.SendIsUnion` | autarch/mesh.py:310-341 | on honest nodes importing a bundle is a union, of record ids and of policy names |
| `Gossip.HopPerRound` | autarch/transport.py:223-241 | after k rounds a node holds everything any node within k hops started with, in both directions of every contact |
| `Gossip.NoInvention` | autarch/transport.py:223-241 | nothing appears that no node had |
| `Gossip.BallsGrow` | autarch/transport.py:223-241 | on a connected peer graph a ball of radius k holds at least min(k + 1, n) nodes |
| `Gossip.GossipConverges` | autarch/transport.py:223-241 | for any grow-only sets, n - 1 rounds on a connected graph leave every node with exactly the union, whatever the order of bundles within a round |
| `Gossip.NodesConverge` | autarch/transport.py:223-241 | after those rounds every node holds all record ids and all policy names of the realm, and any further sync moves no row and no policy |
| `MeshConvergence.EveryNodeHoldsEveryLog` | autarch/transport.py:223-241 | from any stores that records, merges and redactions can lead to, n - 1 rounds give every node the whole log of every author, in a table that verify_chain accepts |
| `MeshConvergence.BundleKeepsPrefix` | autarch/mesh.py:310-341 | importing a whole bundle keeps every origin's rows a prefix of its author's log and leaves no id of the bundle out |
| `Limiter.TokenBucket.TryAcquire` | autarch/resilience.py:219-232 | one locked attempt: when it admits, what it takes, how long it waits |
| `Limiter.TokenBucket.OnSuccess` | autarch/resilience.py:256-260 | the additive increase of the pace |
| `Limiter.TokenBucket.OnThrottle` | autarch/resilience.py:262-270 | the multiplicative decrease, the pause and the drain |
| `Limiter.WindowBound` | autarch/resilience.py:210-243 | under any interleaving of admissions, throttles and successes, the requests and the clamped tokens admitted in any window are at most one full bucket plus one capacity a minute of its length, up to the tolerance of 1e-9 a request |
| `Limiter.WindowBoundFrom` | autarch/resilience.py:210-243 | more exactly, at most what the buckets can hold when the window begins plus one capacity a minute of its length |
| `Limiter.WindowBoundIsSharp` | autarch/resilience.py:175-190 | from the start some run admits a full bucket and j requests more within the time that refills j, so the bound cannot be improved |
| `Limiter.ThreeInThirtySeconds` | autarch/resilience.py:143-149 | an instance above the quota: of two requests a minute three are admitted within thirty seconds |
| `Limiter.QuotaKeptIff` | autarch/resilience.py:143-149 | at full pace and with no pause pending, no run of a minute admits more than the quota if and only if the bucket is empty, up to the tolerance, when the minute begins |
| `Limiter.CoveredStep` | autarch/resilience.py:219-243 | the potential argument for one event: what was let through plus what is left is covered |
| `Limiter.NoAdmissionDuringPause` | autarch/resilience.py:262-270 | after a throttle nothing is admitted before the pause is over |
| `Limiter.PausesEnd` | autarch/resilience.py:262-270 | once every pause asked for is over none holds anything back |
| `Limiter.AdmitsIff` | autarch/resilience.py:210-243 | an attempt is admitted exactly when no pause is on and each bucket, refilled at its fraction of the capacity a minute, holds what the request needs; a request larger than the bucket needs a full one |
| `Limiter.PaceAfterSuccesses` | autarch/resilience.py:256-260 | n successes give back n steps of the pace, up to the full one |
| `Limiter.PaceAfterThrottle` | autarch/resilience.py:262-265 | a throttle leaves the backoff factor's share of the pace, never less than the least, and only successes bring it back |
| `Limiter.ReducedPaceBound` | autarch/resilience.py:236-243 | as long as no call succeeds a window admits at most what the buckets hold when it begins plus their capacities at the adaptive fraction of then |
| `Limiter.ReducedPaceRefills` | autarch/resilience.py:236-243 | at fraction f a request is refilled in 60 / (capacity f) seconds |
| `Limiter.ThrottledBound` | autarch/resilience.py:262-270 | after a throttle the buckets start from nothing and gain at the fraction cut by the factor |
| `Limiter.WaitFillsOneMore` | autarch/resilience.py:245-254 | a refused attempt's wait fills at least one more bucket |
| `Limiter.WaitIsLeast` | autarch/resilience.py:245-254 | no bucket fills before the wait is over |
| `Limiter.TokenBucket.AwaitCapacity` | autarch/resilience.py:210-234 | a single caller's request, however large, is admitted after at most three sleeps |
| `Breaker.CircuitBreaker.Allow` | autarch/resilience.py:287-305 | when a call is let through, and the state left |
| `Breaker.CircuitBreaker.Settle` | autarch/resilience.py:307-331 | the state after an outcome |
| `Breaker.OpensAtTheThreshold` | autarch/resilience.py:318-330 | the circuit is closed exactly as long as fewer consecutive failures have settled than the threshold |
| `Breaker.IgnoredKeepItClosed` | autarch/resilience.py:307-332 | calls that are throttled or end in a terminal error never open the circuit |
| `Breaker.NothingBeforeTheCooldown` | autarch/resilience.py:287-305 | once open and without a success, nothing is let through before the cooldown is over, under any interleaving |
| `Breaker.TrialAfterTheCooldown` | autarch/resilience.py:287-305 | the first call after the cooldown passes exactly when there is a trial slot, however late calls from before it settle |
| `Breaker.FailedTrialReopens` | autarch/resilience.py:318-324 | a failed trial starts the cooldown afresh |
| `Breaker.SuccessWipesTheSlate` | autarch/resilience.py:312-317 | a success in any state closes the circuit until a whole threshold of failures has settled again |
| `Breaker.LimitHoldsIffNoneInFlight` | autarch/resilience.py:163-168 | exactly when `half_open_max` is met: a half-open period keeps to the limit, whatever happens in it, if and only if no call let through before it is still in flight |
| `Breaker.PeriodBegins` | autarch/resilience.py:290-305 | every period opens in a state that theorem is about, its first call a trial and every call then in flight one of the others |
| `Breaker.TrialsAreBounded` | autarch/resilience.py:287-331 | the half-open counter stays within 0 and its maximum under any interleaving; the trials really in flight exceed it by at most the settles of calls from before the period |
| `Breaker.StrayFreesASlot` | autarch/resilience.py:309-311 | that bound is met: with all slots taken, an earlier call ending in a throttle frees a slot no trial has left |
| `Breaker.TwoTrialsInOneSlot` | autarch/resilience.py:163-168 | a concrete run with one trial slot and two trials in flight |
| `Retry.Call` | autarch/resilience.py:394-440 | the retry loop ends, after at most max(1, attempts) + waits provider calls; the responses decide how it ends; every call let through settles exactly once, as a success for a value, a failure for a retryable fault and as neither otherwise, whatever other callers do to the breaker in between; each retried fault waits its Retry-After or the backoff of its own count |
| `Retry.Turn` | autarch/resilience.py:398-440 | one pass of the loop either ends the call or leaves one more retried response, with the breaker paired and the delay recorded |
| `Retry.Judge` | autarch/resilience.py:407-436 | each disposition's branch: the ending, or the counters and the delay before the next try |
| `Retry.CallsAreBounded` | autarch/resilience.py:394-440 | no ending is reached by more provider calls than the two budgets grant |
| `Retry.Interleaved` | autarch/resilience.py:394-440 | the steps of other callers change neither what this caller was admitted for nor what it settled |
| `Executor.AdaptiveState.NextItem` | autarch/resilience.py:583-598 | a worker's turn under the lock: a task below the current limit, the end, or a wait |
| `Executor.AdaptiveState.Process` | autarch/resilience.py:607-652 | what a finished body does to the shared state, and whether its task comes back |
| `Executor.AdaptiveState.Requeue` | autarch/resilience.py:628-634 | after its sleep a task goes to the end of the queue |
| `Executor.EveryRunCompletes` | autarch/resilience.py:556-605 | under any interleaving and any task behaviour a run ends after a bounded number of steps; it can go no further exactly when every thread has returned, and then every slot holds its own task's outcome |
| `Executor.EveryRunIsAccountedFor` | autarch/resilience.py:583-652 | in every reachable state each task is in exactly one place, the counters count what they should, no more bodies run than the effective maximum, and no body starts more often than attempts and throttle waits allow |
| `Executor.SomebodyCanStep` | autarch/resilience.py:583-598 | no deadlock: while a thread has not returned some thread can step, and while a task is not done that step moves a task |
| `Executor.WorkShrinks` | autarch/resilience.py:583-652 | every step uses up work, so no schedule runs for ever |
| `Executor.PaceInRange` | autarch/resilience.py:579-581 | the ceiling stays positive and at most the effective maximum through widening and narrowing |
| `Executor.ClampIsLeast` | autarch/resilience.py:523-547 | arguments out of range are moved to the nearest value in range and the others kept |
| `ExecutorRuns.StartsWithAll` | autarch/resilience.py:556-580 | a run starts with every task queued in order, no outcome, and the ceiling at its start value as far as the maximum allows |
| `ExecutorRuns.OutcomesTellTheLastAnswer` | autarch/resilience.py:607-651 | in every reachable state a task has an outcome exactly when its last answer settled it - a value, a terminal error, one throttle more than is waited out, or the fault that uses up the attempts - no earlier answer did, and the outcome is that answer with its counts |
| `ExecutorRuns.TakesIff` | autarch/resilience.py:583-598 | an idle worker may take a task exactly when one is queued and fewer bodies run than the least concurrency, or one more fits under the ceiling and the maximum |
| `ExecutorRuns.QueueKeepsOrder` | autarch/resilience.py:583-634 | the queue is first in, first out: a task is taken from its head, and one that comes back goes to its end |
| `ExecutorRuns.CeilingMoves` | autarch/resilience.py:607-651 | a value widens the ceiling by a step up to the maximum, a throttle waited out cuts it by the factor down to the least, and nothing else moves it |
| `ExecutorRuns.PeakIsReached` | autarch/resilience.py:592-597 | the peak is the largest number of bodies that ran at a time, or what it began with |
| `ReviewStore.ReleaseReviewStore.SubmitReview` | autarch/review.py:258-354 | the transaction commits or rolls back as one; it is refused exactly for a blank key or subject, a digest that is no SHA-256, nobody named, a quorum or a lifetime out of range; otherwise the review returned is about what was asked for, with the quorum asked for or everybody named |
| `ReviewStore.ReleaseReviewStore.RecordVote` | autarch/review.py:382-449 | a vote, with every refusal, repetition and the decision it may bring; errors roll back |
| `ReviewStore.ReleaseReviewStore.InsertVote` | autarch/review.py:416-448 | a new vote, its event and its verdict within the transaction |
| `ReviewStore.ReleaseReviewStore.RejectReview` | autarch/review.py:369-379 | a rejection needs a comment |
| `ReviewStore.ReleaseReviewStore.Discuss` | autarch/review.py:451-484 | a comment by a named reviewer, at any status |
| `ReviewStore.ReleaseReviewStore.Withdraw` | autarch/review.py:486-513 | manual supersession |
| `ReviewStore.ReleaseReviewStore.Get` | autarch/review.py:515-521 | reading brings the expiry up to date first |
| `ReviewStore.ReleaseReviewStore.RequireValid` | autarch/review.py:541-551 | only an approved review of exactly this digest is returned, and an approved review of it is always returned |
| `ReviewStore.ReleaseReviewStore.Latest` | autarch/review.py:292-295 | the newest review of a key |
| `ReviewStore.ReleaseReviewStore.AppendEvent` | autarch/review.py:678-709 | an event is chained to the last one, or its hash is a duplicate and nothing is written |
| `ReviewStore.ReleaseReviewStore.VerifyChain` | autarch/review.py:574-591 | the loop accepts exactly the linked logs and names the first event that breaks one |
| `ReviewStore.Reviewers` | autarch/review.py:247-256 | every non-blank stripped name is listed, once |
| `ReviewStore.CheckedIff` | autarch/review.py:275-287 | the reasons for refusing a request, and the row of one that is taken, from the request's own fields |
| `ReviewStore.ReviewersKeepOrder` | autarch/review.py:247-256 | a name takes its place when it is first given |
| `ReviewLog.LogReplaysToTables` | autarch/review.py:678-709 | after any sequence of operations, committed or rolled back, folding the event log gives every review as the tables hold it, and the chain check accepts the log |
| `ReviewLog.Logged` | autarch/review.py:228-238 | a change of the tables and the event that tells it keep log and tables in step |
| `ReviewLog.TipBindsLog` | autarch/review.py:574-591 | two accepted logs with the same last hash are the same log |
| `ReviewDecisions.DecisionsAreEarned` | autarch/review.py:396-449 | at most one active review per key; approved means a quorum of distinct named approvers and no rejection; pending means neither; rejected means a rejection came first |
| `ReviewDecisions.DecisionsAreFinal` | autarch/review.py:486-513 | expired and superseded are final, approved and rejected can only be superseded, and what was reviewed never changes |
| `ReviewTimes.DecisionsAreTimely` | autarch/review.py:617-624 | whatever the clock does, no vote counts at or after its review's expiry, every decision was taken before it, and no review expires early |
| `ReviewDecisions.ApprovalsCount` | autarch/review.py:436-440 | counting approving rows counts approving reviewers |
| `ReviewDecisions.ResubmissionIsIdempotent` | autarch/review.py:308-313 | submitting the same content again returns the same review and changes nothing |
| `ReviewDecisions.ReplaceAllDoes` | autarch/review.py:319-329 | a changed submission supersedes exactly the active reviews of its key |
| `ReviewRules.SubmissionMeans` | autarch/review.py:289-354 | a submission gives back the newest review of the release if it is about the same content on the same terms and still stands, and otherwise makes a new one to which every active one gives way |
| `ReviewRules.VoteRefusedIff` | autarch/review.py:389-425 | which votes are refused: on no review, by somebody not named, against one's own earlier vote |
| `ReviewRules.VoteMeans` | autarch/review.py:381-449 | what the others do: nothing on a review that is decided, expiry on one that is late, and otherwise one vote more and the decision it brings |
| `ReviewRules.CommentMeans` | autarch/review.py:451-484 | a named reviewer's comment is stored and logged, and nothing else changes |
| `ReviewRules.ProviderMeans` | autarch/review.py:392-392 | an identity provider that is blank counts as asserted |
| `ReviewRules.WithdrawalMeans` | autarch/review.py:486-513 | a withdrawal supersedes a review that is not over, names its actor and reason in the log, and leaves one that is over alone |
| `ReviewRules.ReadingMeans` | autarch/review.py:515-525 | reading a review at most expires it |
| `ReviewRules.ReplacementsAreLogged` | autarch/review.py:311-326 | each review that gives way is logged as replaced by the new one and its digest |
| `ReviewRules.ApprovedByAll` | autarch/review.py:282-284 | a release submitted without a quorum is approved only when everybody named has approved, over any run |
| `ReviewRuns.CommittedStays` | autarch/review.py:228-238 | every event, vote, comment and review that a transaction committed is still there, in its place, at the end of every run the transaction was part of |
| `ReviewRuns.FailedLeavesNoTrace` | autarch/review.py:228-238 | a transaction that fails in the middle of a run leaves the end of the run as if it had not been tried |
| `ReviewLinks.SupersessionIsAcyclic` | autarch/review.py:315-329 | automatic supersessions never lead back to where they started, and the table still names each replacement |
| `Scoping.NarrowEnums` | autarch/scoping.py:308-318 | the enum merge succeeds exactly when every shared key shrinks, and then is the parent overridden by the child |
| `Scoping.EnumNarrowingSound` | autarch/scoping.py:308-318 | merged enums only ever accept less |
| `Scoping.HostNarrowingSoundIff` | autarch/scoping.py:292-294 | a sub-allowlist narrows if and only if it is not the empty one |
| `Scoping.PortNarrowingSoundIff` | autarch/scoping.py:124-146 | the same for ports |
| `Scoping.SubstringReplacementSoundIff` | autarch/scoping.py:319-321 | replacing forbidden texts narrows if and only if every one of the parent's contains one of the child's |
| `Scoping.DataClassReplacementSoundIff` | autarch/scoping.py:319-321 | replacing forbidden data classes narrows if and only if the child repeats them |
| `Scoping.RegexReplacementSoundIff` | autarch/scoping.py:319-321 | replacing patterns narrows if and only if no text passes the child's and fails the parent's |
| `Scoping.CeilingReplacementSoundIff` | autarch/delegation.py:92-95 | a ceiling that is not greater narrows if and only if it is a number or the parent's stops nothing |
| `Paths.NormPathIdempotent` | autarch/scoping.py:90-107 | lexical normalisation is idempotent and leaves ".." only at the front |
| `Paths.NormalKeepsPlace` | autarch/scoping.py:91-109 | a normalised path leads from any directory to where the path itself leads |
| `Paths.JoinSplit` | autarch/scoping.py:91-109 | the components of a path are the text between its slashes |
| `Paths.ParseRender` | autarch/scoping.py:90-107 | parsing undoes rendering on normal paths |
| `Paths.WithinTextIsContainment` | autarch/scoping.py:90-107 | what equality or a "base/" prefix of the text decides, in terms of components |
| `Paths.TextTestExactIff` | autarch/scoping.py:90-107 | the string tests agree with "the base's components begin the path's" on every path if and only if the base has a component |
| `Paths.RootContainsOnlyItself` | autarch/delegation.py:39-49 | the instance: nothing but "/" is within "/", not even "/etc" |
| `Paths.UpwardExactIff` | autarch/scoping.py:90-107 | the ".." test is right about a path if and only if it does not begin with a longer name that starts with two dots |
| `Paths.DottedNameIsRefused` | autarch/scoping.py:90-107 | the instance: "..x" is refused under every prefix although it climbs nowhere |
| `Paths.PathAcceptedMeans` | autarch/scoping.py:90-107 | what the prefix check accepts, in terms of components |
| `Paths.PathWithinMeans` | autarch/delegation.py:39-49 | what prefix containment accepts, in terms of components |
| `Paths.PathWithinTransitive` | autarch/delegation.py:39-49 | prefix containment is transitive |
| `Paths.WiderPrefixAccepts` | autarch/delegation.py:39-49 | a path accepted under a prefix is accepted under every prefix containing it |
| `Paths.PathWithinIsInclusion` | autarch/delegation.py:39-49 | for relative prefixes that do not go up, containment is exactly inclusion of the accepted paths |
| `Delegation.Authorize` | autarch/kernel.py:23-34 | the first grant whose name matches decides, by its own scope and limits; without one the action is denied |
| `Delegation.FirstMatchDecides` | autarch/kernel.py:23-34 | an action passes exactly when some grant accepts it and no earlier grant matches its name |
| `Kernel.AllowedIff` | autarch/kernel.py:23-34 | an action is allowed exactly when the first grant that names it is not violated in its path, host, port, enumeration, pattern, substring, data class, byte, amount or count constraint |
| `Kernel.EvaluateMeans` | autarch/scoping.py:210-261 | evaluation passes exactly when none of those ten constraints is violated, each said of the parameters themselves |
| `Kernel.MatchesMeans` | autarch/contracts.py:45-56 | a name covers a capability exactly when it is the capability or a family name with a trailing wildcard that it begins with |
| `Kernel.OverIsOrder` | autarch/scoping.py:205 | numbers compare as reals between the infinities, and NaN with nothing |
| `Delegation.KernelInvariants` | autarch/verification.py:9-16 | deny by default and no scope escape, for all grants and actions |
| `Delegation.NameWithinNarrows` | autarch/delegation.py:27-36 | a name within another matches no capability the other does not |
| `Delegation.LimitsWithin` | autarch/delegation.py:85-98 | limits merge exactly when none is dropped and none compares greater; the child's then override |
| `Delegation.AttenuationSound` | autarch/delegation.py:101-131 | whatever an attenuated grant accepts, the grant it came from accepts |
| `Delegation.AttenuationSoundAtAnyDepth` | autarch/delegation.py:101-131 | the same along any line of delegation |
| `Kernel.AttenuationIsMeet` | autarch/delegation.py:101-131 | an attenuated grant lets through only what was asked for and everything that both the parent and the request let through; where the narrowing is real, exactly that |
| `Kernel.CoveredIff` | autarch/delegation.py:27-131 | a request is granted exactly when its name, path prefix, hosts, ports, enumerations, metadata and ceilings are each within the parent's, and the child says where it came from |
| `Kernel.NameWithinIff` | autarch/delegation.py:27-36 | a name is within another exactly when it names no further capability |
| `Delegation.DroppedProhibitionWidens` | autarch/scoping.py:319-321 | a request that drops a prohibition is granted and does what its parent may not |
| `Delegation.EmptiedAllowlistWidens` | autarch/scoping.py:221-226 | a request that empties an allowlist is granted and does what its parent may not |
| `Delegation.NaNLimitWidens` | autarch/delegation.py:92-95 | a request whose limit is NaN is granted and does what its parent may not |
| `Delegation.AttenuateUnder` | autarch/delegation.py:134-145 | the child comes from the first parent grant that can cover the request, and there is none only if no grant can |
| `Delegation.Delegate` | autarch/delegation.py:148-165 | the requests granted and dropped, in order |
| `Delegation.NothingElseIsDropped` | autarch/delegation.py:148-165 | every request is answered one way, and only uncovered ones are dropped |
| `Delegation.DelegationSound` | autarch/delegation.py:148-165 | what a delegated agent's kernel lets through, some parent grant accepts, when each request respects the grant it is answered under |
| `Delegation.FirstMatchCanRefuse` | autarch/kernel.py:23-34 | the parent's own kernel may still refuse it, because it stops at the first match |
| `Delegation.KernelAgrees` | autarch/kernel.py:23-34 | the parent's kernel agrees whenever its first matching grant accepts what any later one accepts |
| `Delegation.UnambiguousKernelAgrees` | autarch/kernel.py:23-34 | in particular when at most one parent grant matches the name |
| `Delegation.KernelAgreesIff` | autarch/verification.py:9-16 | for a list in which every grant falls within itself and none within an earlier one, I3 holds of every delegation and action if and only if the first matching grant always accepts what any later one does |
| `Policy.CombinedIsStrictest` | autarch/policy.py:93-103 | the combined effect is the strictest effect among the policies that apply |
| `Policy.CombinedMeans` | autarch/policy.py:93-103 | the effect is deny exactly when a policy in force denies, and a demand for approval exactly when one demands it and none denies |
| `Policy.NamesInOrder` | autarch/policy.py:93-103 | the names reported are those of the policies in force, in order |
| `Policy.ReasonsInOrder` | autarch/policy.py:93-103 | the reasons reported are theirs, as far as they give any, in order |
| `Policy.PolicyEngine.Evaluate` | autarch/policy.py:93-103 | effect, reasons and applied names of the loop, said of the policies in force |
| `Guarantees.MatchingGrants` | autarch/guarantees.py:106-108 | the grants that can match a capability, and no others |
| `Guarantees.MatchingKeepsOrder` | autarch/guarantees.py:106-108 | in the order of the list, each as often as it stands there |
| `Guarantees.FirstUnconfined` | autarch/guarantees.py:151-168 | the counterexample is a grant that is not confined, and none exists only if all are |
| `Guarantees.CounterexampleGetsThrough` | autarch/guarantees.py:123-173 | a failed proof names a grant that matches the capability and, for a confinement, is not confined |
| `Guarantees.StarCoversAll` | autarch/policy.py:33-38 | an unconditional deny for "*" leaves no action cleared, and an unconditional demand for approval none to automatic ratification |
| `Guarantees.ForbidSound` | autarch/guarantees.py:123-173 | a proved forbid: no such action clears the kernel and the policies |
| `Guarantees.RequireApprovalSound` | autarch/guarantees.py:123-173 | a proved require_approval: policy never leaves such an action to automatic ratification |
| `Guarantees.ConfineSound` | autarch/guarantees.py:123-173 | a proved confine: every cleared action has path and dest inside the prefix |
| `Guarantees.ForbidComplete` | autarch/guarantees.py:123-173 | with unconditional policies a forbid is proved if and only if the action is not cleared |
| `Guarantees.RequireApprovalComplete` | autarch/guarantees.py:123-173 | with unconditional policies a require_approval is proved if and only if the policies do not simply allow the action |
| `Guarantees.ConfineComplete` | autarch/guarantees.py:123-173 | with unconditional policies and relative path scopes a confine is proved if and only if the capability is denied or no matching grant's scope lets a path outside the prefix pass |
| `Guarantees.NarrowingKeepsProof` | autarch/guarantees.py:123-173 | whatever is proved of grants is proved of any narrower grants |
| `Guarantees.DelegationNarrows` | autarch/delegation.py:148-165 | delegated grants are narrower |
| `Guarantees.FilteringNarrows` | autarch/rbac.py:72-84 | role-filtered grants are narrower |
| `Guarantees.AuthorizeGrants` | autarch/rbac.py:72-84 | exactly the grants a role permits are allowed, and none is lost |
| `Guarantees.CanGrantIff` | autarch/rbac.py:65-70 | a principal may grant a capability exactly when a pattern of one of its roles covers it |
| `Guarantees.ChildGrantsMean` | autarch/agent.py:247-269 | a spawned agent holds exactly the requests attenuated under the first parent grant that covers them and, under a principal, permitted by a role |
| `Guarantees.GuaranteesAreInherited` | autarch/agent.py:247-269 | what is proved of an agent holds of every descendant it can spawn, at any depth |
| `Pipeline.Agent.RunRounds` | autarch/agent.py:347-412 | the loop of run comes to the ruling of the specification: no motion, the first one not sent back, or, once the rounds are used up, the last one overruled |
| `Pipeline.Agent.RulingMeans` | autarch/agent.py:347-412 | a run ends in the first round that brings no motion or is not sent back, or overrules in the last; with somebody presiding by their answer, without as pending, or ratified exactly when kernel, policies, precedents and council are all for it |
| `Pipeline.Agent.CarriedMeans` | autarch/agent.py:664-681 | an action is ratified exactly when some round brought it, every earlier one was sent back and that one ratified it |
| `Pipeline.Agent.SentBackCarriesNothing` | autarch/agent.py:399-411 | a run whose every round is sent back carries nothing |
| `Pipeline.Agent.Run` | autarch/agent.py:323-438 | at most one action reaches an adapter, exactly when a round carried it, the kernel allows it, no policy denies it and the budget holds; its cost is charged exactly when it ran; the decision reported is the one that ended the rounds; a completed run does nothing |
| `Pipeline.Agent.Enact` | autarch/agent.py:492-592 | a commanded action, in the shape of its adapter, reaches it exactly when it is allowed, not denied and affordable, and is charged exactly when it ran |
| `Pipeline.Agent.Execute` | autarch/agent.py:425-438 | only an action that ran is charged |
| `Pipeline.Agent.Carry` | autarch/agent.py:412-438 | gate, policy and budget decide together: the action reaches its adapter exactly when all three let it, and otherwise nothing is done or charged |
| `Pipeline.Agent.CheckBudget` | autarch/economy.py:111-122 | an estimate is affordable exactly when no metered ceiling is exceeded |
| `Pipeline.ForbiddenNeverExecutes` | autarch/guarantees.py:123-173 | a proved forbid: no run and no enactment ever executes the capability, for every council, adapter and presiding function |
| `Pipeline.ConfinedStaysInside` | autarch/guarantees.py:123-173 | a proved confine: every executed action has its paths inside |
| `Pipeline.ApprovalIsNeverSkipped` | autarch/agent.py:664-681 | a proved require_approval: without a presiding function no run executes the capability |
| `Pipeline.ForbiddenInTheWholeTree` | autarch/agent.py:214-269 | a forbid proved of the parent covers every agent spawned below it |
| `Pipeline.ConfinedInTheWholeTree` | autarch/agent.py:214-269 | so does a confine |
| `Pipeline.ApprovalInTheWholeTree` | autarch/agent.py:214-269 | so does a require_approval |
| `Factory.Prove` | autarch/guarantees.py:176-183 | the failures are empty exactly when every invariant is proved |
| `Factory.CheckTools` | autarch/factory.py:238-262 | the loops over a blueprint's adapters and grants accept exactly a blueprint under its own name whose adapters are distinct and usable and, where tools are strict, offer something every grant covers |
| `Factory.Validate` | autarch/factory.py:221-271 | a pack is valid exactly when it has blueprints, every adapter of its catalog could be initialised, and every blueprint stands under its name, uses usable adapters once each, has its grants backed where tools are strict, and has all its invariants proved |
| `Factory.Compile` | autarch/factory.py:273-316 | which error is raised first, and that a deployment comes out exactly for a valid pack, a known blueprint, an approval that was given for exactly this pack and blueprint if one is required, and adapters and agent that can be built; the guarantee error cannot occur |
| `Factory.SecondProofFollows` | autarch/factory.py:309-316 | the first proof implies the second over the role-filtered grants |
| `SharedBudget.Budget.WouldExceed` | autarch/economy.py:83-92 | the first meter whose ceiling an estimate would exceed, or none |
| `SharedBudget.Budget.Charge` | autarch/economy.py:94-97 | a charge adds every entry of the estimate |
| `SharedBudget.StepKeepsBound` | autarch/economy.py:111-125 | spent plus checked-but-uncharged costs stays within the ceiling and the slack of the other workers, and nothing pending costs more than the dearest action that could pass |
| `SharedBudget.OneAction` | autarch/agent.py:417-438 | a check lets in exactly an action that fits under every metered ceiling; abandoned it leaves no trace, and settled it adds its cost to every meter |
| `SharedBudget.OvershootIsBounded` | autarch/orchestration.py:518-524 | with p workers and costs of at most m per action, a ceiling is exceeded in every reachable state by at most p - 1 times the smaller of m and what was left at the start |
| `SharedBudget.SequentialNeverOverspends` | autarch/orchestration.py:518-524 | one worker never exceeds a ceiling |
| `SharedBudget.OvershootIsReached` | autarch/agent.py:417-438 | some run attains that bound, for every number of workers, positive cost, ceiling and amount spent before |
| `SharedBudget.CeilingKeptIff` | autarch/agent.py:417-438 | every run keeps a ceiling if and only if there is one worker, nothing costs anything, or nothing was left |
| `Waves.Waves` | autarch/orchestration.py:98-119 | every subtask of the dictionary is in exactly one wave; wave k is everything whose prerequisites lie in earlier waves; what remains is flushed as one last wave |
| `Waves.ByIdMeans` | autarch/orchestration.py:95-96 | the dictionary has one entry an id, the last subtask given for it |
| `Waves.ByIdOfUnique` | autarch/orchestration.py:95-96 | a plan whose ids are unique is its own dictionary |
| `Waves.WaveIsLongestChain` | autarch/orchestration.py:98-119 | a settled subtask's wave index is the length of its longest dependency chain |
| `Waves.PrerequisitesAreEarlier` | autarch/orchestration.py:98-119 | everything a subtask needs, however indirectly, is in an earlier wave |
| `Waves.FlushedIffStuck` | autarch/orchestration.py:98-119 | the last wave is a flush of exactly the subtasks that reach a cycle or a missing id |
| `Waves.AcyclicPlansSchedule` | autarch/orchestration.py:98-119 | a plan without cycles and dangling ids is scheduled without a flush |
| `Scanner.FirstBalancedObject` | autarch/util.py:146-176 | the result is the shortest stretch from the first brace after which the depth outside strings is zero, or nothing if there is none |
| `Scanner.PrintIsNeutral` | autarch/util.py:146-176 | every JSON text, with any whitespace of section 2 and any way of writing a string's characters of section 7 of RFC 8259, leaves the scanner where it was |
| `Scanner.Alphabet` | autarch/util.py:155-176 | which characters stand raw in a string, which after a backslash, and which make up numbers and names |
| `Scanner.ItemsInOrder` | autarch/util.py:146-176 | the texts are JSON: items in their order with a comma between each two |
| `Scanner.MembersInOrder` | autarch/util.py:146-176 | and members likewise |
| `Scanner.PrintedObjectIsFirstBalanced` | autarch/util.py:146-176 | whatever follows it, and whatever precedes it without a brace, a JSON object - however it was written - is the first balanced block |
| `Scanner.RecoverPrinted` | autarch/util.py:146-176 | the scanner recovers exactly that object's text |

## Left out

- Delegation.AttenuationSound: states soundness under `Delegation.RespectsParent`, whose parts are the exact conditions that module `Scoping` proves key by key. It is not an equivalence for a whole request, since another key of the same request may refuse what the first one lets through.
- Delegation.Attenuate: dictionaries with values of the wrong type, which raise inside the checks, are not modelled; a failing check denies.
- Delegation.KernelAgreesIff: where a grant falls within an earlier one, a request for it is answered under the earlier one, and only the sufficient direction (`Delegation.KernelAgrees`) is stated.
- Scoping.NarrowEnums: a NaN counts as a member of a list that holds one; Python asks for the same object.
- Limiter.TokenBucket.AwaitCapacity: progress is for one caller; several callers may starve one another. A clock that runs and a sleep that lasts are assumed.
- Limiter.QuotaKeptIff: for a minute that begins during a pause or below full pace only one direction is stated (`Limiter.KeptWhenLow`): a later start or a slower refill can also keep it to the quota.
- Limiter.WindowBound: floating-point rounding is not modelled, and a configuration must have its factors in range (`Limiter.Sane`); a least pace above 1 or a backoff factor above 1 would raise the pace above the quota.
- Breaker.CircuitBreaker.Allow: the callbacks that emit events when the circuit opens or closes are not part of the model.
- Retry.Call: the waits in the limiter and for a concurrency slot are taken to end without raising; a call interrupted between `allow` and the provider would never settle.
- Executor.AdaptiveState.NextItem: waiting on the condition variable is a step that changes nothing; delays only decide when a sleeping worker wakes.
- MeshProtocol.LedgersStayVerifiable: each origin has one store and one writer at a time, pruning and unsealed legacy rows are excluded, nodes are honest, and record ids are unique over all authors. Lemmas in `MeshProtocol` and `Merging` show that the first and the last of these are needed.
- ChainBinding.LastSealBindsHistory: no row of the one table may collide with a different text of the other, since no 64-digit hash is injective; `Merging.MergeVerifiesIff` asks the same of each table by itself.
- Gossip.Mesh.Round: encryption, signatures and HTTP are not modelled; a bundle arrives whole or not at all. Imports that stop half way are steps of `MeshProtocol`.
- ReviewStore.ReleaseReviewStore.SubmitReview: which of two equally new reviews counts as the latest is left open, and a lifetime that is not finite has no counterpart among the reals.
- ReviewStore.ReleaseReviewStore.RequireValid: the two locked regions of reading are one step; the answer is about the row as read.
- ReviewLinks.SupersessionIsAcyclic: manual supersession may name any replacement, even the review itself.
- Pipeline.Agent.Run: journaling is one flag, the recorded step between gate and execution is not modelled, and nothing changes the motion after the gate has seen it. Councils, presiding functions and precedents are arbitrary and differ from run to run; adapters and cost estimates are arbitrary functions.
- Factory.Validate: the checks of one field by itself, such as names, versions and quorums, are one given outcome per blueprint and one for the pack.
- Factory.Compile: whether an adapter can be read a second time and whether the agent can be built are given outcomes; identifiers and fingerprints are arbitrary functions.
- Policy.PolicyEngine.Evaluate: an effect outside the three known ones, which raises, is not modelled.
- Paths.NormPathIdempotent: POSIX paths only, without the special case of exactly two leading slashes.
- Scanner.PrintIsNeutral: a word is any run of the characters that literal names and numbers are made of, so more texts are covered than are JSON.
- SharedBudget.Budget.Charge: the locks are the atomicity of the steps.
- SharedBudget.Budget.WouldExceed: ceilings and costs are real numbers. A ceiling or a cost that is NaN makes every later comparison false and so switches the check off; outside the limits of grants such numbers and infinities have no counterpart here.
- `str`, `lower`, `strip`, URL parsing, regular expressions and number parsing are arbitrary functions: every result holds for all of them.
- Storage (SQLite, files, JSON encoding) is sequences and maps; an id generator or clock is a parameter.
- `autarch/approval.py`, `autarch/precedent.py`, `autarch/recall.py` and `autarch/compliance.py` repeat the review store and the ledger in smaller forms.
- Restoring state after an action (the file-system adapter's undo) is decided by adapters that this model takes as arbitrary.
- The remaining command line, telemetry, rendering and example code is plumbing around the parts above.
