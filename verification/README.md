# Verified model of the agent coordinator's decision logic

This project models the decision logic of an agent coordinator in Dafny and proves what that logic
promises over all inputs, all runs and all interleavings. The coordinator moves tasks between an
implementer and a reviewer until a review passes, polls for work in overlapping cycles, prints and reads
back structured reviews, layers plans, recovers from runtime failures, and keeps a few small stores.

The source's imperative parts (classes, module state, loops that fill maps and lists) are classes and
methods with loops here; each is proved equal to a function of its inputs or of the old state, and the
theorems are about those functions. Regular expressions, hashes, the database, the file system, clocks
and model calls are parameters.

## The files

- `Collections`, `InsertionMap`: small facts; a map that remembers insertion order.
- `LayerTheory`, `PlanLayers`, `PlanTexts`, `PlanProperties`: plan parsing and execution layers.
- `ReviewFindings`, `MergedFindings`, `ReviewGate`, `ReviewGateProperties`, `GateDecisions`: the automatic
  review gate and what each of its decisions means.
- `ReviewStreaks`, `ReviewOutcomes`: streaks over runs of reviews, and the outcome of a review.
- `FailureFingerprint`, `FingerprintGuard`, `ReworkProtocol`, `ReworkRuns`, `ReworkEndings`,
  `ReworkTightness`: the rework protocol of a task.
- `Semaphores`, `PollCycle`, `PollInvariants`, `PollLimits`, `SerialProjects`: overlapping poll cycles.
- `ReviewText`, `ReviewWords`, `ReviewSections`, `SectionReading`, `ReviewRows`, `RowReading`, `ReviewComments`,
  `ReviewAcceptance`, `ReviewRoundTrip`, `ReviewDocument`,
  `ReviewMerge`, `MergedStatuses`, `ReviewBuild`, `ReviewListing`, `ReviewEndToEnd`: building, printing and
  parsing structured reviews.
- `StableJson`, `StableJsonText`, `StableJsonUnique`, `StableJsonTies`: the canonical JSON text behind fingerprints.
- `JsonValues`, `RecoveryOptions`, `FallbackChain`, `FallbackChoice`, `DeltaGuard`: runtime recovery.
- `RuntimeCache`, `CacheProperties`, `CacheSweeps`: the in-memory cache. `ActivityQueue`, `ActivityTimers`: the
  activity log.
- `AuditSections`, `AuditFindings`, `AuditTexts`: the two scanners for weak or discarded audit findings.

## What turned out to need a condition

- Completing a task can turn an acyclic plan into a cyclic pending plan. The pending relation is a
  subgraph of the full one exactly when no pending task that lost all its explicit dependencies has a
  pending task in an earlier phase (`PendingSubgraphIff`, `CompletionCanCreateCycle`). The pending part of an
  acyclic plan has a cycle exactly when such a gained dependency waits, over pending dependencies, for the
  task that gained it, and every pending cycle goes through one (`PendingCyclicIff`, `PendingCycleGains`).
- A finding's streak restarts when a structured review follows a parse error, because that path does not
  ask about earlier parse errors. The stall rule fires exactly for ids that were listed, and remembered,
  the threshold times in a row (`StallsExactlyAtThreshold`, `ForgottenIff`, `ForgottenIdSentBackTwice`). For
  an id to come back like this the structured review must list the parse error's own id as a blocker; ids
  that the review builder makes are made of a reviewer's source and text, so this takes comments that were
  written by hand or supplied through the API.
- A request for evidence is answered by an inspection of another reviewer, but the advisory that replaces it
  names the path under its own source, so it can answer the next request, even of the reviewer who inspected
  the path. A path counts as inspected exactly when another reviewer's advisory or such an earlier one names it
  (`InspectedIff`, `OwnInspectionCanReplace`).
- With a stall threshold of one a finding counts as stalled the first time it is seen, so no review sends a
  task back and the reviewer runs once. With a review limit of zero or less it runs once as well before the
  limit stops the task. The bounds on a run are stated for all limits and thresholds and are exact
  (`RunsAreBounded`, `BoundsAreReached`).
- Total = still-blocking + new holds on the preserving paths exactly when the previous ids are distinct
  (`KeepAllKeeps`), and on the structured path exactly when every finding reported blocking is actionable
  (`StructuredCounts`).
- A serial project can have two tasks in flight once a claim reaches its end without being renewed
  (`SerialFailsAfterLapse`). It never has two exactly when every start that finds a task of the project in
  flight, and is ready but for the project's lock, finds an unexpired claim in the project
  (`SerialProjectHasOneTask`); claims in use that stay held are enough for that (`HeldClaimsKeepSerial`).
- The delta fields do not include the failed profile, so one requirements snapshot gets at most one
  context fallback (`OneContextFallbackPerSnapshot`). The chain of fallbacks by itself only visits no profile
  twice (`ChainNeverRevisits`).
- Setting a context fallback and reading it gives the same value exactly when the profile id is not blank
  and the attempt is a positive integer (`SetThenRead`).
- A JSON value prints like every value equal to it exactly when in no object inside it two different keys
  tie (`EqualMeaningsEqualTextsIff`); a locale comparison ties keys that are canonically equivalent. Equal
  texts mean equal values for any comparison. In the same way the findings of a review are sorted alike
  wherever they were listed exactly when no two different ones of them tie (`SortForgetsOrderIff`).
- Dropping expired cache entries can be noticed by a later get, because a key whose expired entry is still
  present keeps its old place in the eviction order when it is set again. Over all later runs it is
  unobservable exactly when nothing is expired or the cache has room for at most two entries
  (`SweepUnobservableIff`, `SweepChangesLaterGet`).
- Stripping a text of its weak or discarded sections twice is the same as once exactly when no line that is
  kept, but the last such line, ends in a carriage return (`StripTextTwiceIff`, `ReturnBeforeLineEndIsLost`).

## Model

| member | source | states |
|---|---|---|
| PlanLayers.ReadRows | packages/agent/src/planLayers.ts:54-106 | the table built line by line holds, for every task number, its last row, that row's phase and all dependencies ever listed for it |
| PlanLayers.ParsePlanTasks | packages/agent/src/planLayers.ts:54-130 | tasks come out in ascending order, one per task number in the text, each described by the text: last row wins, dependencies accumulate, unknown and self dependencies go |
| PlanTexts.DescribedIff | packages/agent/src/planLayers.ts:54-130 | a task is described by the text exactly when it has its last row's words, mark and number of phase headings before, and depends on every other task with a row that its rows or the dependency lines below them list |
| PlanLayers.GroupByPhase | packages/agent/src/planLayers.ts:133-138 | exactly the used phases, each with exactly its tasks |
| PlanLayers.FindTask | packages/agent/src/planLayers.ts:147-148 | finds a task with the number, or there is none |
| PlanLayers.ResolvePhase | packages/agent/src/planLayers.ts:146-155 | explicit dependencies win; otherwise all tasks of earlier phases |
| PlanLayers.BuildResolvedDependencies | packages/agent/src/planLayers.ts:132-159 | every task gets its explicit dependencies, or all tasks of earlier phases when it has none |
| PlanLayers.ResolvesUniquely | packages/agent/src/planLayers.ts:132-159 | that description determines the relation |
| PlanTexts.WaitsFor | packages/agent/src/planLayers.ts:132-159 | a task waits for exactly its explicit dependencies, or without any for every task of an earlier phase |
| PlanLayers.CollectReady | packages/agent/src/planLayers.ts:168-172 | the remaining tasks none of whose dependencies remain |
| PlanLayers.TakeLayer | packages/agent/src/planLayers.ts:167-186 | one iteration: the ready tasks in order, or the least task when a cycle blocks everything |
| PlanLayers.ComputeExecutionLayers | packages/agent/src/planLayers.ts:161-189 | the loop computes the layers that the theorems are about |
| LayerTheory.FallbackIffCycle | packages/agent/src/planLayers.ts:175-181 | the single-task fallback fires at some point if and only if the relation has a cycle |
| LayerTheory.DrainPartitions | packages/agent/src/planLayers.ts:165-186 | layers are non-empty and every task sits in exactly the layer its index says |
| LayerTheory.DependenciesEarlier | packages/agent/src/planLayers.ts:165-186 | without a cycle every dependency is in a strictly earlier layer |
| LayerTheory.LayerIsLongestChain | packages/agent/src/planLayers.ts:161-189 | without a cycle the layer index is the length of the longest dependency chain |
| LayerTheory.LayersAreLeast | packages/agent/src/planLayers.ts:161-189 | no valid layering puts any task earlier |
| LayerTheory.FewestLayers | packages/agent/src/planLayers.ts:161-189 | no valid layering uses fewer layers |
| LayerTheory.SubgraphNoLater | packages/agent/src/planLayers.ts:161-189 | fewer dependencies keep a plan acyclic and move no task later |
| PlanProperties.EveryTaskExactlyOnce | packages/agent/src/planLayers.ts:161-189 | layers are non-empty, strictly ascending, and contain every task exactly once |
| PlanProperties.LayerOfIsPosition | packages/agent/src/planLayers.ts:161-189 | a task is in the printed layer with its layer index and in no other |
| PlanProperties.PhasesAreTheLayers | packages/agent/src/planLayers.ts:141-158 | with no explicit dependencies the layers are the phases in ascending order |
| PlanProperties.ComputePendingPlanLayers | packages/agent/src/planLayers.ts:197-210 | pending tasks are the incomplete ones without their completed dependencies, layered |
| PlanTexts.PendingIff | packages/agent/src/planLayers.ts:197-210 | the pending tasks are exactly the incomplete ones, each waiting for what is not completed |
| PlanProperties.PendingLayersHoldIncompleteTasks | packages/agent/src/planLayers.ts:197-210 | the pending layers contain exactly the incomplete tasks, once each |
| PlanProperties.PendingSubgraphIff | packages/agent/src/planLayers.ts:149-153 | the pending relation is a subgraph of the full one if and only if no task gains a phase dependency |
| PlanProperties.PendingNeverLater | packages/agent/src/planLayers.ts:197-210 | then an acyclic plan stays acyclic and no task moves to a later layer |
| PlanProperties.PendingCycleGains | packages/agent/src/planLayers.ts:197-210 | every cycle among the pending tasks of an acyclic plan goes through a gained phase dependency |
| PlanProperties.PendingCyclicIff | packages/agent/src/planLayers.ts:197-210 | the pending tasks of an acyclic plan form a cycle if and only if a gained phase dependency closes one |
| PlanProperties.CompletionCanCreateCycle | packages/agent/src/planLayers.ts:202-207 | an acyclic plan whose pending part is cyclic |
| ReviewFindings.MergeFindings | packages/agent/src/reviewGate.ts:431-449 | the map updates give the merge by id with places kept |
| ReviewFindings.MergeIds | packages/agent/src/reviewGate.ts:431-449 | merging yields one finding per id of any group |
| ReviewFindings.MergeKeepsLast | packages/agent/src/reviewGate.ts:440-445 | the last finding of an id decides its text and source |
| MergedFindings.MergedSays | packages/agent/src/reviewGate.ts:431-449 | a merged finding has the text and source of the last one with its id and each optional field of the last one that has it |
| MergedFindings.MergedOrder | packages/agent/src/reviewGate.ts:431-449 | merged findings stand where their id first appears |
| GateDecisions.EnrichedSays | packages/agent/src/reviewGate.ts:451-486 | a finding not carried before is seen for the first time; a carried one is seen again with a streak one longer and keeps its first sighting, or gets the one its streak gives |
| ReviewGate.CollectStillBlockingIds | packages/agent/src/reviewGate.ts:946-958 | the ids reported blocking, and the previous ids still actionable |
| ReviewGate.ParsedPreviousFindingsMatchInput | packages/agent/src/reviewGate.ts:770-788 | true exactly when every previous finding is reported once, under its source, and nothing else is |
| ReviewGateProperties.KeepAllKeeps | packages/agent/src/reviewGate.ts:736-768 | every previous finding is kept; total = still + new if and only if the previous ids are distinct |
| ReviewGateProperties.PreviousFindingsSurvive | packages/agent/src/reviewGate.ts:1357-1532 | after a parse error, a contract failure or unstructured output no previous finding is lost, and only a recoverable contract failure without any passes |
| ReviewGateProperties.StructuredCounts | packages/agent/src/reviewGate.ts:946-970 | total is at most still + new, with equality exactly when all reported blockers are actionable |
| ReviewGateProperties.StructuredTotalBounded | packages/agent/src/reviewGate.ts:898-1047 | on the structured path total never exceeds still + new |
| GateDecisions.BlockersAreRaised | packages/agent/src/reviewGate.ts:873-933 | the blockers are exactly the ids reported open, listed by the review, raised by the validators, or reported closed while their validator still objects |
| GateDecisions.BlockerSays | packages/agent/src/reviewGate.ts:904-933 | a blocker has the words of the validators if they raised it, then of the review's list, then of the reopened finding, and otherwise of the open report |
| GateDecisions.OpenReportSays | packages/agent/src/reviewGate.ts:909-927 | an open report counts as a finding with its note, status and source, and its evidence unless that is empty |
| GateDecisions.StructuredStatusIff | packages/agent/src/reviewGate.ts:934-1047 | exactly when a structured review passes, lacks evidence, is malformed or needs a person, needs the operator, finds only new things in a closure review, or asks for changes |
| GateDecisions.SuccessAnswersEverything | packages/agent/src/reviewGate.ts:928-991 | a structured review passes only if the blocker of every raised id calls for no action, or all blockers are recoverable failures to cover security areas and the reviewers' outputs are clean |
| GateDecisions.StructuredSendsBack | packages/agent/src/reviewGate.ts:972-1047 | what is sent back: everything previous and standing when the comments are not sound, else those that need a person, or all that stand, in order |
| GateDecisions.StructuredNumbers | packages/agent/src/reviewGate.ts:946-970 | the metrics of a sound review count the ids previous, still blocking, new and standing |
| GateDecisions.LegacyStatusIff | packages/agent/src/reviewGate.ts:1151-1247 | the same for comments that only list blockers; with previous findings and nothing listed a person has to look |
| GateDecisions.LegacySendsBack | packages/agent/src/reviewGate.ts:1151-1247 | what is sent back then |
| GateDecisions.UnstructuredStatusIff | packages/agent/src/reviewGate.ts:1049-1149 | the same for comments without structure, which close no previous finding |
| GateDecisions.UnstructuredSendsBack | packages/agent/src/reviewGate.ts:1049-1149 | what is sent back then |
| GateDecisions.ParseErrorStatusIff | packages/agent/src/reviewGate.ts:1480-1532 | a parse error asks for another try unless the previous findings have it already |
| GateDecisions.ParseErrorSendsBack | packages/agent/src/reviewGate.ts:1480-1532 | everything known and the parse error are sent back |
| GateDecisions.ContractStatusIff | packages/agent/src/reviewGate.ts:1357-1454 | a broken contract passes exactly when nothing was open and coverage is all that broke; otherwise a person is asked exactly when another reviewer's finding asks for one |
| GateDecisions.ContractSendsBack | packages/agent/src/reviewGate.ts:1357-1454 | unless it passes, everything known and the broken contract are sent back |
| ReviewGateProperties.SuccessClosesEveryFinding | packages/agent/src/reviewGate.ts:797-827 | after success each previous finding has exactly one report under its source, with closure evidence if closed |
| ReviewGateProperties.NothingDropsSilently | packages/agent/src/reviewGate.ts:909-945 | when changes are requested, a missing previous finding was closed with evidence or judged not actionable |
| ReviewStreaks.ReviewsMakeHistory | packages/agent/src/reviewGate.ts:1543-1582 | every decision shape enriches its findings against the findings it was held against |
| ReviewStreaks.StreakIsRunLength | packages/agent/src/reviewGate.ts:451-486 | after review k a carried finding has lastSeen = k and streak = lastSeen - firstSeen + 1 = reviews in a row that listed and remembered it |
| ReviewStreaks.RunLengthMeansListed | packages/agent/src/autoReviewHandler.ts:263-273 | that number reaches n exactly when the last n reviews listed it and remembered it |
| ReviewStreaks.StallsExactlyAtThreshold | packages/agent/src/autoReviewHandler.ts:410-464 | a review stops as stalled exactly when some id was listed the threshold times in a row |
| ReviewStreaks.NeverSentBackThresholdTimes | packages/agent/src/autoReviewHandler.ts:410-464 | no id is sent back in threshold consecutive reviews that remember it |
| ReviewStreaks.ForgottenIff | packages/agent/src/reviewGate.ts:1550-1566 | an id is forgotten only by a structured review and only as a parse error |
| ReviewStreaks.ForgottenIdSentBackTwice | packages/agent/src/reviewGate.ts:1550-1566 | such an id, listed again as a blocker, is sent back twice in a row despite a threshold of two |
| ReviewStreaks.ChangesAreListed | packages/agent/src/reviewGate.ts:1357-1582 | on every path a review that asks for changes lists at least one finding |
| ReviewOutcomes.OutcomeIff | packages/agent/src/autoReviewHandler.ts:301-648 | each outcome has exactly one cause: accepted, operator and hand-off mirror the gate's status; changes stop as stalled, then at the limit, and otherwise go to another review if only the review failed, or to the implementer |
| FailureFingerprint.SortedKeeps | packages/agent/src/coordinator.ts:2699-2712 | sorting loses and adds no finding |
| FailureFingerprint.SameContentIff | packages/agent/src/coordinator.ts:2700-2711 | two findings are hashed alike exactly when they differ at most in streaks and outer whitespace |
| FailureFingerprint.OrderDetermines | packages/agent/src/coordinator.ts:2712 | two sorted lists of the same contents, no two different ones of which tie, are the same list |
| FailureFingerprint.SortForgetsOrderIff | packages/agent/src/coordinator.ts:2712 | where the contents were listed makes no difference to the sorted list if and only if no two different ones of them tie |
| FailureFingerprint.EqualFingerprints | packages/agent/src/coordinator.ts:2697-2737 | equal review fingerprints mean the same outcome, the same snapshot and the same findings in all that is hashed of them but their order, and the converse holds when no two different findings of the review tie |
| FingerprintGuard.GrantedIffRows | packages/agent/src/coordinator.ts:2739-2758 | granted exactly when the stage has no record of the failure, or at least as many override rows as records |
| FingerprintGuard.GrantsBounded | packages/agent/src/coordinator.ts:2739-2787 | over any history the grants for a fingerprint are at most one plus its overrides |
| FingerprintGuard.GrantedFingerprintsDistinct | packages/agent/src/coordinator.ts:2739-2787 | without overrides granted fingerprints of a stage are pairwise distinct |
| FingerprintGuard.BoundIsReached | packages/agent/src/coordinator.ts:2739-2787 | the bound is reached for every number of overrides |
| ReworkProtocol.TaskRecord.RecordFailure | packages/agent/src/coordinator.ts:3785-3823 | looks at the history first, then appends the failure |
| ReworkProtocol.TaskRecord.ReturnImplementationEvidenceToRework | packages/agent/src/coordinator.ts:3756-3859 | returns to the implementer below the evidence limit, or blocks on a repeated fingerprint; nothing changes otherwise |
| ReworkProtocol.TaskRecord.FinishImplementer | packages/agent/src/coordinator.ts:4629-4690 | the row after an implementer stage: terminalized, review skipped, unchanged rework, evidence guard, handoff |
| ReworkProtocol.TaskRecord.SendBackUnlessRepeated | packages/agent/src/coordinator.ts:4807-4959 | rework or reviewer retry with the counters it sets, or a block when the fingerprint is repeated |
| ReworkProtocol.TaskRecord.AcceptReview | packages/agent/src/coordinator.ts:4961-5008 | an accepted review ends the task, moves it to QA, or blocks it for evidence |
| ReworkProtocol.TaskRecord.ApplyGateOutcome | packages/agent/src/coordinator.ts:4702-5008 | the row after each gate outcome, its fingerprint made of the outcome and its findings |
| ReworkProtocol.TaskRecord.FinishReviewer | packages/agent/src/coordinator.ts:4692-5009 | the row after a reviewer stage, with the gate's own decision on the row's findings and iteration |
| ReworkEndings.ImplementerEnds | packages/agent/src/coordinator.ts:4629-4690 | an implementer stage finishes a task exactly on a skipped review with sufficient evidence, hands over exactly with sufficient evidence and a change, and keeps it exactly with a retry left for a new failure |
| ReworkEndings.ImplementerBlocks | packages/agent/src/coordinator.ts:5010-5101 | what it leaves when it blocks: counters and findings as they were, and a person asked for when nothing changed, a failure repeats, or the evidence guard says so |
| ReworkEndings.ImplementerHandsOn | packages/agent/src/coordinator.ts:5103-5130 | what it leaves when it hands on: counters reset, the iteration and the findings of a rework kept for the review |
| ReworkEndings.ReviewerEnds | packages/agent/src/coordinator.ts:4692-5009 | a reviewer stage finishes a task exactly when the gate's result is success and the evidence sufficient, and sends it round exactly when changes are asked for, nothing stalled, reviews are left and the failure is new |
| ReworkEndings.ReviewerBlocks | packages/agent/src/coordinator.ts:4702-4976 | what it leaves when it blocks: the review's findings, one more iteration, retries kept or forgotten, and whether a person is asked for |
| ReworkEndings.ReviewerFinishes | packages/agent/src/coordinator.ts:4977-5008 | a finished task starts over; one in QA keeps the iteration and the findings |
| ReworkEndings.FinishedIff | packages/agent/src/coordinator.ts:4661-5008 | over any run a task ends in QA, or done, exactly when one stage was a skipped review or a review the gate let pass, with sufficient evidence and QA enabled, or not |
| ReworkEndings.FinishedMeansReviewed | packages/agent/src/coordinator.ts:4692-5008 | a task that a structured review finished had every previous finding reported on and everything raised answered |
| ReworkRuns.ImplementerLoops | packages/agent/src/coordinator.ts:5101-5124 | an implementer stage that keeps the task in the loop keeps the iteration and either adds one retry within the limit or hands off with retries reset |
| ReworkRuns.ReviewerLoops | packages/agent/src/autoReviewHandler.ts:466-510 | a reviewer stage that keeps the task in the loop adds one iteration below the limit and resets retries, and the stall threshold is above one |
| ReworkRuns.SentBackAboveThreshold | packages/agent/src/autoReviewHandler.ts:410-464 | with a stall threshold of one no review sends a task back |
| ReworkRuns.LoopStepDecreases | packages/agent/src/coordinator.ts:3767-3774 | every stage that does not leave the loop makes (reviews left, implementing before review, reworks left) smaller |
| ReworkRuns.RunsAreBounded | packages/agent/src/coordinator.ts:3756-3859 | from zero counters the reviewer runs at most M times and the implementer at most M * (E + 1) times, with M = 1 at a stall threshold of one or a review limit below one |
| ReworkTightness.BoundsAreReached | packages/agent/src/coordinator.ts:3756-3859 | for all limits and thresholds and from every fresh task some run reaches both bounds, with structured reviews that close the last blocker and report a new one |
| ReworkTightness.BusyRoundFindsOne | packages/agent/src/reviewGate.ts:898-1047 | a structured review that closes what was there with evidence and reports a new blocker asks for changes for that blocker alone |
| ReworkRuns.RunKeepsHistory | packages/agent/src/coordinator.ts:5101-5124 | through all stages the row's findings and iteration are those of one continuous review history |
| ReworkRuns.SentBackUnstalledInRun | packages/agent/src/autoReviewHandler.ts:410-464 | in any run, a review that sends the task back leaves no id listed the threshold times in a row, and all streaks are exact |
| ReworkRuns.RunIsGuarded | packages/agent/src/coordinator.ts:4807-4929 | a run's attempt history is that of its guard requests, and every loop was granted |
| ReworkRuns.LoopsBoundedByOverrides | packages/agent/src/coordinator.ts:4807-4929 | a run loops for one failure in one stage at most once more than operators overrode it |
| ReworkRuns.SentBackFindingsDiffer | packages/agent/src/coordinator.ts:4807-4929 | without overrides no two reviews send the task back the same way, under one snapshot, with the same findings; nor with the same ones in another order when no two different findings of a review tie |
| Semaphores.StageSemaphore.TryAcquire | packages/agent/src/coordinator.ts:338-343 | takes a permit exactly below the maximum |
| Semaphores.StageSemaphore.Release | packages/agent/src/coordinator.ts:345-348 | gives a permit back, never below zero |
| Semaphores.StageSemaphore.TotalActive | packages/agent/src/coordinator.ts:354-358 | the loop sums all counts |
| Semaphores.TotalAfterPut | packages/agent/src/coordinator.ts:338-358 | changing one count changes the total by the same amount |
| PollCycle.Coordinator.ClaimTask | packages/data/src/index.ts:4614-4644 | claims a task that is no container and is unclaimed or whose claim expired |
| PollCycle.Coordinator.ReleaseTaskClaim | packages/data/src/index.ts:4875-4889 | releases only this coordinator's claim |
| PollCycle.Coordinator.TryStartTask | packages/agent/src/coordinator.ts:5757-5967 | one candidate: every check in order, then claim and permits |
| PollCycle.Coordinator.StartClaimed | packages/agent/src/coordinator.ts:5913-5939 | takes the permits, or gives back everything taken |
| PollCycle.Coordinator.FinishTask | packages/agent/src/coordinator.ts:5959-5965 | a finished task gives back its stage permit, runtime permit and claim |
| PollCycle.Coordinator.RunStage | packages/agent/src/coordinator.ts:5724-5968 | candidates are started in order with their project's spawn count, until a stage is full |
| PollInvariants.ReachableIsSound | packages/agent/src/coordinator.ts:5712-5974 | in every reachable state permits are those of the tasks in flight, at most the global maximum, no claim is left behind, a protected endpoint has one user at most |
| PollInvariants.ReleaseNeverClamps | packages/agent/src/coordinator.ts:345-348 | releasing a task's permits never meets a zero count |
| PollInvariants.GivingUpRestores | packages/agent/src/coordinator.ts:5913-5937 | a start that gives up leaves every count as it was |
| PollInvariants.KeyOfProtectedEndpoint | packages/agent/src/coordinator.ts:602-664 | only profiles of a protected endpoint have its key, across all profiles |
| PollLimits.KeyOfProfile | packages/agent/src/coordinator.ts:660-664 | an ordinary profile's key belongs to profiles of that id without a protected endpoint alone |
| PollInvariants.QuietMeansClean | packages/agent/src/coordinator.ts:5959-5965 | once nothing is in flight every permit and claim has been given back |
| PollLimits.StartsIff | packages/agent/src/coordinator.ts:5757-5939 | a candidate starts exactly when fewer tasks than the maximum are in flight, its runtime profile has room, it may be claimed, no gate is closed, and its project takes one more |
| PollLimits.StartEffect | packages/agent/src/coordinator.ts:5898-5939 | a start puts the task in flight under this coordinator's claim; a skipped candidate changes nothing; a full stage only gives the claim back |
| PollLimits.FinishEffect | packages/agent/src/coordinator.ts:5959-5965 | a task that ends takes its own place and this coordinator's claim on it away, and nothing else |
| PollLimits.ProfileLimitHolds | packages/agent/src/coordinator.ts:602-625 | in every reachable state an ordinary profile whose setting stays has at most its configured number of tasks in flight, one if it is an unconfigured local agent, and never more than the maximum |
| PollLimits.EndpointHasOneTask | packages/agent/src/coordinator.ts:602-664 | a protected endpoint has one task in flight at most, whichever profiles reach it |
| SerialProjects.SerialStartsIff | packages/agent/src/coordinator.ts:5757-5939 | in a reachable state a serial candidate starts if and only if it is ready, there is room, and no claim in its project is unexpired |
| SerialProjects.SerialProjectHasOneTask | packages/agent/src/coordinator.ts:5758-5779 | over any run a serial project never has two tasks in flight if and only if no ready start that finds one in flight finds the project without an unexpired claim |
| SerialProjects.HeldClaimsKeepSerial | packages/agent/src/coordinator.ts:5771-5779 | while the claims in use stay held, it has at most one |
| SerialProjects.LapsedClaimLetsSecondIn | packages/data/src/index.ts:4850-4861 | without an unexpired claim in the project a second task starts |
| SerialProjects.SerialFailsAfterLapse | packages/data/src/index.ts:4850-4861 | a run in which a serial project has two tasks in flight, after time reached the end of the first one's claim and nothing else happened |
| ReviewText.CollapseNormalizes | packages/agent/src/reviewContract.ts:274-280 | whitespace normalization is idempotent and leaves one trimmed line |
| ReviewWords.CollapseKeepsWords | packages/agent/src/reviewContract.ts:274-276 | whitespace normalization keeps the words in order, one space between them and none at the ends |
| ReviewText.BeforeRawOfJoin | packages/agent/src/reviewContract.ts:1007 | the cut before the raw sections returns exactly the lines before them |
| ReviewText.LinesOfJoin | packages/agent/src/reviewContract.ts:118 | joining and splitting lines is a round trip |
| ReviewSections.CollectSectionData | packages/agent/src/reviewContract.ts:113-134 | the loop gives each line to the section open at it; repeated names are noted once each in order, nameless sections dropped |
| SectionReading.ScanIs | packages/agent/src/reviewContract.ts:113-134 | a name has a section exactly when it has a heading, the section has exactly the lines whose last heading before has that name, and exactly the names with two headings are noted as repeated |
| ReviewSections.ScanBlock | packages/agent/src/reviewContract.ts:118-131 | a heading with a new name and its body becomes one section |
| ReviewSections.NormalizeListSection | packages/agent/src/reviewContract.ts:136-163 | bullets become items, continuation lines join them, a lone none is empty, anything else is malformed |
| SectionReading.ListIs | packages/agent/src/reviewContract.ts:136-163 | a list is malformed exactly when a bullet says nothing, text comes before any bullet, or one of several items says none; otherwise its items have the words of the bullets and of the lines that continue them |
| ReviewSections.ListItemsOfRows | packages/agent/src/reviewContract.ts:136-163 | reading printed bullet rows gives the items back |
| ReviewRows.ReadPreviousItem | packages/agent/src/reviewContract.ts:754-756 | a printed previous-finding row reads back with its id, source, status and normalized note |
| ReviewRows.ReadBlockingItem | packages/agent/src/reviewContract.ts:758-760 | a printed blocking row reads back |
| ReviewRows.ReadAdvisoryItem | packages/agent/src/reviewContract.ts:762-764 | a printed advisory row reads back |
| ReviewRows.ReadCoverageItem | packages/agent/src/reviewContract.ts:766-768 | a printed coverage row reads back |
| RowReading.PreviousReadsIff | packages/agent/src/reviewContract.ts:1169-1200 | a previous-finding row is read as a finding exactly when it is a bracketed id, a known source, a known status and a note on the same line, each behind its gap or bar |
| RowReading.BlockingReadsIff | packages/agent/src/reviewContract.ts:1098-1119 | the same for blocking rows: id, known source, text |
| RowReading.AdvisoryReadsIff | packages/agent/src/reviewContract.ts:1121-1142 | the same for advisory rows: known source, text |
| RowReading.CoverageReadsIff | packages/agent/src/reviewContract.ts:694-735 | the same for coverage rows: required area, known coverage status, note |
| ReviewComments.DigitsRead | packages/agent/src/reviewContract.ts:1080-1083 | a positive iteration prints as a numeral that reads back as itself |
| ReviewAcceptance.IterationReadIff | packages/agent/src/reviewContract.ts:1080-1083 | an iteration is read from its own numeral and from nothing else |
| ReviewComments.ParsePreviousRows | packages/agent/src/reviewContract.ts:1169-1236 | rows are accepted once per id and only under the expected source, each failure reported in order with its code, row and id |
| ReviewComments.ParseCanonicalPreviousFindingItems | packages/agent/src/reviewContract.ts:1169-1254 | and every expected finding without a row is reported missing, one issue each |
| ReviewComments.ParseSecurityCoverageItems | packages/agent/src/reviewContract.ts:694-752 | one row per area, all required areas present, each failure reported in order with its code, row and area, and a value only without issues |
| ReviewAcceptance.PreviousRowsAre | packages/agent/src/reviewContract.ts:1169-1236 | the accepted rows are those that can be read, are the first about their finding and are expected under their source; every other row has its own issue, in order |
| ReviewAcceptance.PreviousAcceptedIff | packages/agent/src/reviewContract.ts:1169-1254 | there are no issues exactly when every row is accepted and no expected finding is missing |
| ReviewAcceptance.CoverageAcceptedIff | packages/agent/src/reviewContract.ts:694-752 | coverage is accepted exactly when every row can be read, no area repeats and no required one is missing |
| ReviewAcceptance.ParseAcceptedIff | packages/agent/src/reviewContract.ts:1010-1167 | a text is accepted exactly when it has each of the five sections once and every list is in order, and then it is what the rows say, row by row |
| ReviewAcceptance.SummaryIs | packages/agent/src/reviewContract.ts:1004-1008 | what is parsed is the text before the raw heading, or all of it if there is nothing before |
| ReviewAcceptance.UnlistedIsTold | packages/agent/src/reviewContract.ts:1010-1047 | a text without the five lists is told which names repeat and which sections are missing or malformed, in order |
| ReviewAcceptance.ListedIsTold | packages/agent/src/reviewContract.ts:1010-1056 | with the five lists it is told about repeated names and then what is wrong with the lists |
| ReviewAcceptance.RejectedIsTold | packages/agent/src/reviewContract.ts:1048-1160 | that is every metadata label or value that is missing or invalid, every row that cannot be accepted, every expected finding and required area without a row, each once and in order |
| ReviewAcceptance.AcceptedIsSound | packages/agent/src/reviewContract.ts:1010-1254 | every accepted review has a positive iteration, reports on each expected finding once and under its source and on nothing else, and covers every required area once |
| ReviewRoundTrip.ListsReadBack | packages/agent/src/reviewContract.ts:1045-1166 | the printed lists read back as the review |
| ReviewDocument.RawNeverInterferes | packages/agent/src/reviewContract.ts:994-1008 | whatever raw lines follow, the canonical summary is exactly the canonical lines |
| ReviewDocument.ScanDocument | packages/agent/src/reviewContract.ts:113-134 | each printed block becomes one section |
| ReviewDocument.ParsePrintRoundTrip | packages/agent/src/reviewContract.ts:945-1167 | parsing a printed review gives it back, for any number of findings and any raw sections |
| ReviewDocument.RawOutputsNeverMatter | packages/agent/src/reviewContract.ts:968-977 | prints that differ only in raw reviewer outputs parse alike |
| ReviewDocument.RawLinesShow | packages/agent/src/reviewContract.ts:968-972 | the raw part shows the code review's and the security audit's redacted outputs, or that there was none |
| ReviewDocument.RawSpecializedAt | packages/agent/src/reviewContract.ts:973-977 | and below a heading of its role each specialized reviewer's, in order |
| ReviewMerge.MergePreviousFindings | packages/agent/src/reviewContract.ts:791-831 | one entry per counted id, with the most severe status anyone reported and the expected source |
| ReviewMerge.MergeIsFaithful | packages/agent/src/reviewContract.ts:783-831 | the same of the merge as a function, over any number of reviewers |
| ReviewMerge.MergeOrderIrrelevant | packages/agent/src/reviewContract.ts:800-828 | the order of reviewers changes neither the ids nor their statuses |
| MergedStatuses.MergedStatusIs | packages/agent/src/reviewContract.ts:783-828 | a merged finding needs a person if anyone says so, else still blocks, else blocks anew, else is not reproducible; it is resolved only if all say so |
| MergedStatuses.ConsolidatedSays | packages/agent/src/reviewContract.ts:811-827 | of two reports the first source stays, the more severe words win, and a conflict of notes is put on record |
| MergedStatuses.AgreedNoteStays | packages/agent/src/reviewContract.ts:811-827 | a note on which all reports agree is the merged note |
| MergedStatuses.SoleReportStays | packages/agent/src/reviewContract.ts:800-809 | a finding with one report is that report under the expected source |
| ReviewBuild.KeepBlockingPrevious | packages/agent/src/reviewContract.ts:882-899 | merged findings with a blocking status enter the blocking map |
| ReviewBuild.AddReviewerBlocking | packages/agent/src/reviewContract.ts:904-941 | each reviewer finding is demoted, ignored as stale, or listed |
| ReviewBuild.BlockingPreviousAreListed | packages/agent/src/reviewContract.ts:884-943 | no rule drops a merged finding with a blocking status, and every reviewer finding is listed or leaves an advisory |
| ReviewListing.ListedUnlessReplaced | packages/agent/src/reviewContract.ts:904-941 | a reviewer's finding is listed as blocking unless it only asks for paths that an advisory of another source names, or cites another, specialized reviewer who passed; then the advisory of that rule stands for it |
| ReviewListing.InspectedIff | packages/agent/src/reviewContract.ts:643-663 | a requested path counts as inspected exactly when another reviewer's advisory names it or the advisory of an earlier replaced finding of another source does |
| ReviewListing.OwnInspectionCanReplace | packages/agent/src/reviewContract.ts:908-919 | so a reviewer's own inspection can answer that reviewer's request, by way of another's replaced request |
| ReviewListing.BuiltReviewListsExactly | packages/agent/src/reviewContract.ts:882-943 | the blocking list has exactly the ids of those findings and of the merged previous findings with a blocking status, each with what was said last, and the advisories are the reviewers' own and then those of the rules, in order |
| ReviewListing.CoverageIsLast | packages/agent/src/reviewContract.ts:770-781 | a required area is covered by the last entry for it, the security audit's if there is one |
| ReviewEndToEnd.MergedPrintable | packages/agent/src/reviewContract.ts:791-831 | merging keeps findings printable, consolidated notes included |
| ReviewEndToEnd.PickedAreas | packages/agent/src/reviewContract.ts:770-781 | merged coverage has every required area once |
| ReviewEndToEnd.BlockingReportMerges | packages/agent/src/reviewContract.ts:783-831 | a single report with a blocking status leaves a merged finding with one |
| ReviewEndToEnd.BuiltReviewReadsBack | packages/agent/src/reviewContract.ts:854-1167 | the built review prints and parses back under its own expectations, and every expected finding that any single reviewer reported blocking is in the parsed blocking list |
| ReviewEndToEnd.CollapseKeepsText | packages/agent/src/reviewContract.ts:274-276 | whitespace normalization empties no visible text |
| StableJsonUnique.QuoteUnique | packages/agent/src/coordinator.ts:2543 | escaped strings are uniquely decodable |
| StableJsonUnique.PrintUnique | packages/agent/src/coordinator.ts:2536-2547 | inside any text, equal prints mean equal values and equal rests |
| StableJsonUnique.SortMeans | packages/agent/src/coordinator.ts:2541-2542 | sorting by key changes neither keys nor meaning |
| StableJsonText.PrintReads | packages/agent/src/coordinator.ts:2536-2547 | the printed text is, by the JSON grammar, a text of the value it was printed from |
| StableJsonUnique.EqualTextsEqualMeanings | packages/agent/src/implementationRecoveryPack.ts:454-463 | equal texts mean values that are equal ignoring key order, for any comparison |
| StableJsonUnique.MeaningDeterminesPrint | packages/agent/src/implementationRecoveryPack.ts:454-463 | a value in which no two different keys of one object tie prints like every value that is equal to it ignoring key order |
| StableJsonTies.TiedKeysPrintDifferently | packages/agent/src/implementationRecoveryPack.ts:458 | two keys that tie give equal objects with different texts |
| StableJsonTies.TieTellsApart | packages/agent/src/coordinator.ts:2536-2547 | for any value with a tie, at any depth, an equal value with another text |
| StableJsonTies.EqualMeaningsEqualTextsIff | packages/agent/src/coordinator.ts:2536-2547 | a value prints like every value equal to it if and only if no two different keys of one object inside it tie |
| RecoveryOptions.CollectFailedLists | packages/agent/src/runtimeRecoveryOptions.ts:42-48 | the loop keeps the lists, cleaned, and nothing else |
| RecoveryOptions.WrittenIsStored | packages/agent/src/runtimeRecoveryOptions.ts:89-102 | a written state reads back normalized, and adapter options are untouched |
| RecoveryOptions.NothingIsAbsent | packages/agent/src/runtimeRecoveryOptions.ts:89-115 | options are absent exactly when there is neither state nor anything for the adapter, and the adapter gets nothing rather than an empty object |
| RecoveryOptions.SetKeepsTheRest | packages/agent/src/runtimeRecoveryOptions.ts:134-165 | setting adds the failed profile to its stage and changes no other stage and no adapter option |
| RecoveryOptions.SetThenRead | packages/agent/src/runtimeRecoveryOptions.ts:117-124 | set followed by read returns what was set if and only if the profile is not blank and the attempt a positive integer |
| RecoveryOptions.MarkKeepsTheRest | packages/agent/src/runtimeRecoveryOptions.ts:167-178 | marking adds one profile and changes nothing else |
| RecoveryOptions.ClearKeepsTheRest | packages/agent/src/runtimeRecoveryOptions.ts:180-191 | clearing removes the stage's fallback and changes nothing else |
| FallbackChain.SelectionIsVisible | packages/agent/src/coordinator.ts:792-826 | the choice is a visible profile that passes every compatibility check |
| FallbackChoice.ChoiceIs | packages/agent/src/coordinator.ts:764-826 | the choice is the first preferred id whose profile may take over, else the first other profile that may, and none only if none may |
| FallbackChoice.NextInKind | packages/agent/src/coordinator.ts:764-789 | a chosen profile is enabled and of the same runtime, provider and transport, and two unknown sizes follow each other only by preference |
| FallbackChoice.ChainKeepsKind | packages/agent/src/coordinator.ts:1485-1587 | all profiles of a chain share runtime, provider and transport |
| FallbackChain.ChangesKeepFailed | packages/agent/src/runtimeRecoveryOptions.ts:134-191 | no sequence of sets, marks and clears makes a stage forget a failed profile |
| FallbackChain.ChainNeverRevisits | packages/agent/src/coordinator.ts:1485-1587 | a chain of context fallbacks never comes back to a profile, whatever is marked, cleared or set in between, for any stage |
| FallbackChain.ChainIsBounded | packages/agent/src/coordinator.ts:1485-1587 | so it has at most as many fallbacks as visible profiles |
| FallbackChain.CapacityIncreases | packages/agent/src/coordinator.ts:781-789 | a known capacity stays known and strictly increases |
| DeltaGuard.SameEvidenceIff | packages/agent/src/coordinator.ts:1196-1197 | comparing evidence by stable JSON is comparing the lists |
| DeltaGuard.EvaluateRuntimeRecoveryDelta | packages/agent/src/coordinator.ts:1210-1249 | allowed exactly when no recorded decision of the kind has the same delta fields |
| DeltaGuard.DecisionReadsBack | packages/agent/src/coordinator.ts:1155-1190 | reading the metadata that a decision was recorded with gives its signature back |
| DeltaGuard.GrantedDeltasDiffer | packages/agent/src/coordinator.ts:1155-1279 | granted recoveries of one kind have pairwise different delta fields over any history |
| DeltaGuard.GrantedIffChanged | packages/agent/src/coordinator.ts:1210-1249 | over any history a recovery is granted exactly when no earlier one of its kind was asked for with the same artifact, validator, tool loop, reason, evidence and snapshot |
| DeltaGuard.RecordSays | packages/agent/src/coordinator.ts:1250-1279 | the record says allowed exactly when the recovery was |
| DeltaGuard.OneContextFallbackPerSnapshot | packages/agent/src/coordinator.ts:1541-1578 | one requirements snapshot gets at most one context fallback |
| RuntimeCache.RuntimeMemoryCache.constructor | packages/runtime/src/cache.ts:19-23 | defaults and lower limits of size and lifetime |
| RuntimeCache.RuntimeMemoryCache.EvictExpired | packages/runtime/src/cache.ts:25-30 | the loop drops exactly the expired entries and keeps the order |
| RuntimeCache.RuntimeMemoryCache.Get | packages/runtime/src/cache.ts:33-41 | returns an unexpired entry and drops an expired one |
| RuntimeCache.RuntimeMemoryCache.Set | packages/runtime/src/cache.ts:42-55 | makes room, then puts the entry; the size stays within the maximum |
| RuntimeCache.RuntimeMemoryCache.Delete | packages/runtime/src/cache.ts:56-58 | removes the key only |
| RuntimeCache.RuntimeMemoryCache.Clear | packages/runtime/src/cache.ts:59-61 | removes everything |
| CacheProperties.SetEffect | packages/runtime/src/cache.ts:42-55 | a set gives up at most one live entry, the oldest, exactly when live entries fill the cache, and changes no other |
| CacheProperties.GetEffect | packages/runtime/src/cache.ts:33-41 | a get drops exactly the looked-up entry if it expired, and leaves the rest and its order |
| CacheProperties.HoldsOnlyLastSet | packages/runtime/src/cache.ts:32-62 | over any run a held entry is the one last set and not deleted or cleared since |
| CacheProperties.GetReturnsOnlyLastSet | packages/runtime/src/cache.ts:33-41 | a get returns only what a plain map would |
| CacheProperties.RefinesPlainMap | packages/runtime/src/cache.ts:32-62 | with a non-decreasing clock and no set on a cache full of live entries, it answers exactly like a plain map |
| CacheProperties.SweepBeforeSetIff | packages/runtime/src/cache.ts:43-54 | right after one set the live entries and their order are the same with and without a sweep before it if and only if the key has no expired entry ahead of a live one |
| CacheSweeps.SweepBeforeGet | packages/runtime/src/cache.ts:33-41 | before a get a sweep changes neither the answer nor the live entries left and their order |
| CacheSweeps.SmallRun | packages/runtime/src/cache.ts:32-62 | with room for at most two, caches with the same live entries keep having them over any run |
| CacheSweeps.SweepChangesLaterGet | packages/runtime/src/cache.ts:43-54 | with room for three, any expired entry makes a run after which a get misses that a sweep would have let hit |
| CacheSweeps.SweepUnobservableIff | packages/runtime/src/cache.ts:25-62 | over all later runs with a non-decreasing clock, dropping expired entries is unobservable if and only if there are none or the cache has room for at most two |
| ActivityQueue.ActivityLog.LogActivity | packages/agent/src/hooks.ts:149-194 | writes at once in synchronous mode; in batch mode enqueues, dropping the oldest when full, flushes at the batch size, restarts the timer |
| ActivityQueue.ActivityLog.FlushActivityQueue | packages/agent/src/hooks.ts:76-93 | stores the queue in order and empties it; a failed write loses it |
| ActivityQueue.ActivityLog.FlushAllActivityQueues | packages/agent/src/hooks.ts:98-104 | flushes each task's queue |
| ActivityQueue.ActivityLog.DisposeActivityQueue | packages/agent/src/hooks.ts:110-119 | cancels the timer, flushes and drops the queue |
| ActivityQueue.TasksDoNotInterfere | packages/agent/src/hooks.ts:60-194 | a task's queue and log are those it would have had alone |
| ActivityQueue.QueueIsNewest | packages/agent/src/hooks.ts:171-180 | the queue is the newest unflushed entries, never more than the limit |
| ActivityQueue.NothingLost | packages/agent/src/hooks.ts:156-190 | synchronous, or with batch size at most the limit, and with every write taken, stored then queued is everything logged |
| ActivityQueue.KeptInOrder | packages/agent/src/hooks.ts:156-190 | in any run what is kept is an in-order subsequence of what was logged |
| ActivityTimers.TimerRunsIff | packages/agent/src/hooks.ts:110-194 | over any run a task's timer runs exactly when, in batch mode, an entry was logged since the timer last fired or was cancelled |
| ActivityTimers.QueuedIsTimed | packages/agent/src/hooks.ts:121-194 | nothing is queued without a timer running |
| ActivityTimers.EndsEmpty | packages/agent/src/hooks.ts:76-134 | a flush, a timer and a disposal empty the queue into the log, or lose it with a failed write |
| ActivityTimers.AllEndEmpty | packages/agent/src/hooks.ts:98-104 | flushing all tasks empties each queue into its own log |
| AuditSections.CollectedIffCovered | packages/shared/src/auditCardDecision.ts:136-152 | a line is collected exactly when a section opened before it still covers it |
| AuditSections.OpeningIffUncoveredHeading | packages/shared/src/auditCardDecision.ts:137-148 | a line opens a section exactly when it is such a heading and nothing covers it |
| AuditSections.StripSections | packages/shared/src/auditCardDecision.ts:131-155 | keeps exactly the kept lines, in order |
| AuditSections.ExtractFindings | packages/shared/src/auditCardDecision.ts:168-227 | extracts the findings of exactly the sections that stripping leaves out |
| AuditSections.SectionsHoldCollected | packages/shared/src/auditCardDecision.ts:203-223 | the extracted sections hold the collected lines, all of them, in order, one section per opening line |
| AuditFindings.SectionIsSpan | packages/shared/src/auditCardDecision.ts:203-223 | the section of an opening line has its kind and exactly the lines behind it up to the first that is not collected |
| AuditFindings.ExtractedIff | packages/shared/src/auditCardDecision.ts:176-200 | a section with bullets gives a finding for what each says, discarded if it says so, and none for those that say there is nothing; a section without gives its text |
| AuditFindings.ExtractedInOrder | packages/shared/src/auditCardDecision.ts:180-190 | one finding for each bullet that says something, in their order |
| AuditFindings.FindingsAre | packages/shared/src/auditCardDecision.ts:168-227 | what is extracted is what the sections give |
| AuditSections.RolesPartition | packages/shared/src/auditCardDecision.ts:136-152 | every line is exactly one of kept, opening or collected |
| AuditSections.SelectedAtRank | packages/shared/src/auditCardDecision.ts:136-152 | each line is at its place in the part of its role |
| AuditSections.KeptHasNoWeakHeading | packages/shared/src/auditCardDecision.ts:144-147 | kept lines contain no such heading |
| AuditSections.StripIsIdempotent | packages/shared/src/auditCardDecision.ts:131-155 | stripping kept lines again changes nothing |
| AuditSections.NothingToExtractAfterStrip | packages/shared/src/auditCardDecision.ts:168-227 | nothing is extracted from what stripping keeps |
| AuditTexts.StripTextTwiceIff | packages/shared/src/auditCardDecision.ts:131-155 | stripping a text again changes nothing if and only if no line of the text that is kept, but the last kept one, ends in a carriage return |
| AuditTexts.ReturnBeforeLineEndIsLost | packages/shared/src/auditCardDecision.ts:132-154 | a text for which it does |
| AuditTexts.NothingToExtractFromStrippedText | packages/shared/src/auditCardDecision.ts:131-227 | nothing is extracted from a stripped text |

## Left out

- Regular expressions and wording (operator-input detection, evidence detection, JSON-claim refutation, audit wording): taken as arbitrary functions.
- Hashes: fingerprints are compared as the texts or values they are made of; what the implementation evidence guard hashes is an input. The normalization in packages/shared/src/auditFailureFingerprint.ts is only a sorted set of trimmed, lower-cased strings and would add an easy member.
- Database, git, file system, clocks, timers and notifications: parameters, or steps that anything may take in between.
- Roadmap and audit artifacts, plan-quality replans, fast retries and runtime errors inside the rework protocol: the termination claim is for tasks without a roadmap artifact on runs without runtime errors.
- Implementer-internal manifest rework: its runner is not part of this model.
- Error and backoff tables, profile resolution, schemas, adapters and prompts: lookup logic.
- The sidecar and specialized-role parsers: the canonical comments parser is modelled, and what those two produce is an input to the merge.
- Parse issues: their codes, rows, subjects and order are modelled; their wording, and the hash of the sorted issues, are not.
- Security coverage and blocker history inside the persisted review state: stored and read elsewhere.
- The order in which a language lists an object's keys: fields are modelled in the order in which they are listed, and JavaScript lists keys that read as array indices first.
- JSON values that are not JSON (undefined, not-a-number, lone surrogates): the printer is modelled on JSON values.
- StageSemaphore.reset: only tests use it.
- PlanLayers.ParsePlanTasks: lines arrive classified as phase, task row, dependency line or other.
- FallbackChain.ChainNeverRevisits: for profile ids that are not blank, since the store drops blank ids, and for failures attributed to the profile that ran.
