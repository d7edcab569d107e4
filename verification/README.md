# ServiceOps: approvals, delivery, clocks and trails, verified

This project models the parts of ServiceOps in which a mistake would be hardest to see by reading one
function, and proves what they promise over every input and every run.

* **Approvals.** An approval policy is resolved into stages, compiled (people who already decide are folded
  into earlier stages, neighbouring every-approver stages are merged) and then run as a chain of gates with
  votes. `Satisfied` gives both ends one meaning: which sets of approving people a list of stages lets
  through. The compiler is proved sound for every mode, exact for `all` and `any`, and exact for `majority`
  under a condition that is itself proved exact. The chain is proved to reach Approved only when the policy
  is satisfied, to always make progress, and to guard every change ticket, whatever the lifecycle table says.
  Putting both together, the groups of people who can get a record approved are exactly the groups that
  satisfy the resolved policy. For each stage it is said for which changes it counts, whom it asks and how
  many of them, and for each vote what it records.
* **Outbox.** Any number of workers, a clock, crashes and lease expiry at every point, as a transition system.
* **Workflows.** The resumable interpreter refines straight-line execution.
* **SLA clock and business calendar.** The day-jumping deadline loop finds the earliest time by which the
  minutes fit into opening hours, and ends exactly when they can fit; the pause, resume and re-target
  arithmetic agrees with an independent stopwatch, with business schedules and without.
* **Audit chain, outages, record numbers, source arbitration.** Verification of the hash chain across key
  rotation and what the head pins down; downtime as a count of distinct time units; allocation that never
  collides; a field value that does not depend on the order of imports.

Rows of the database are fields of classes or values in sequences and maps, times are integers, and each
commit is one step. Class methods are tied to functions on values; what the source promises is proved about
those functions and about whole runs of them.

| file | models |
|---|---|
| `ApprovalPolicies.dfy` | resolving and compiling a policy |
| `ApprovalChains.dfy` | chain, gates and votes |
| `ApprovalGuarantees.dfy` | policy and chain together |
| `PolicyConditions.dfy` | what one stage of a policy comes to |
| `ChangeGating.dfy` | a change ticket under its approval chains |
| `Outbox.dfy` | outbox delivery protocol |
| `Workflows.dfy` | resumable workflow interpreter |
| `BusinessTime.dfy`, `SlaClock.dfy` | business deadlines, SLA clock |
| `AuditChain.dfy` | audit hash chain and key rotation |
| `Outages.dfy` | merged downtime |
| `RecordNumbers.dfy` | number allocation |
| `SourceArbitration.dfy` | which importer's value a field keeps |
| `Sorting.dfy`, `Basics.dfy`, `Outcomes.dfy` | stable sort, numbers and collections, optional values and refusals |

Where the code does not do what its documentation or its purpose suggests, the model follows the code and
says so in a lemma:

* `Outbox.CrashCanDeliverTwice`: the comment at app.py:2416-2420 says that a crash between claim and persist
  does not deliver twice. Delivery records stay unique, but the network sees the event twice.
  `CrashDeliversTwice` reaches such a run, and `CanSendExactly` says when a delivery can go out again.
* `Outbox.LateCommitRecordsTwice`: workers commit after their deadline as well; then even the records can repeat.
  `LateCommitExactly` says when they do not.
* `ApprovalPolicies.SomebodyIsAskedTwice`: the comment at serviceops_core/approval_policies.py:74 says that one
  person is never asked twice across person stages. `NobodyAskedTwiceExactly` says when that is so.
* `ApprovalPolicies.WeakSkipLosesMeaning`: `skip_duplicates` compares approvers and not modes;
  `SkippedPairExactly` says when that is harmless.
* `ApprovalPolicies.MajorityFoldExactly`: folding a partly overlapping majority stage raises its threshold
  unless one person overlaps and an odd number remain (`MajorityFoldRaisesThreshold`).
* `Workflows.RollbackReopensNewest`: a rollback marks the newest execution of the job, also when that one is
  Completed and another workflow raised. `OtherWorkflowFailsIt` reaches such a job.
* `BusinessTime.LoopEndsExactly`: `validate_calendar` accepts opening hours of less than a minute, for which
  `add_business_minutes` never ends (`HalfAMinuteNeverEnds`).
* `BusinessTime.HalfPastDoesNotAddUp`: the start is truncated to the minute, so deadlines of a calendar that
  opens off the minute need not add up. `DeadlinesComposeExactly` says for which calendars they do.
* `SlaClock.OvernightPauseLosesAnHour`: pauses are added on the wall clock, also for SLAs with a business schedule.
  `PauseKeepsBusinessTimeExactly` says when that loses no business time.
* `Outages.ShortOutageIsRoundedAway`: rounding can show 100 percent for a service that was down.
* `RecordNumbers.ShortRowIsPassedOver` and `LongRowBlocks`: the comment at app.py:1471-1472 says that the largest
  number is found even if older ones were padded differently. A shorter row with a larger number is passed
  over, and a longer row makes the allocator repeat itself; `LargestIsFoundExactly` and
  `AllocationsNeverCollide` give the exact conditions.
* `SourceArbitration.EqualTextsDependOnOrder`: two importers that agree leave the recorded source to the order
  in which they ran. `WinnerExactly` and `ArbitrationIsOrderIndependent` give the exact conditions.

## Model

| member | source | states |
|---|---|---|
| `ApprovalPolicies.CollectTeamRows` | serviceops_core/approval_policies.py:249-271 | the loop over teams gives one row to each team not covered yet and returns the teams covered afterwards |
| `ApprovalPolicies.ResolveStage` | serviceops_core/approval_policies.py:198-296 | the rows and covered teams of one policy stage, source by source |
| `ApprovalPolicies.NoTeamAskedTwice` | serviceops_core/approval_policies.py:234-271 | over a whole policy no team named by a CI-owner, co-owner or task stage had a row in an earlier team stage, in any order of stages |
| `ApprovalPolicies.TaskTeamsAreCovered` | serviceops_core/approval_policies.py:259-271 | every team with change-task work was covered before or gets a row of its own in the stage |
| `ApprovalPolicies.NormalisingKeepsMeaning` | serviceops_core/approval_policies.py:372-378 | the sole-approver rule never changes which people satisfy a stage with a configured mode |
| `ApprovalPolicies.ExcludedOnlyThroughFallback` | serviceops_core/approval_policies.py:359-369 | a kept row has approvers; an excluded person is among them only through the fallback, when nobody else was found |
| `ApprovalPolicies.FoldDuplicate` | serviceops_core/approval_policies.py:409-431 | decides folding and the people left exactly as `Fold`, whose effect on meaning `PlaceIsSound`, `PlaceIsComplete` and `MajorityFoldExactly` settle |
| `ApprovalPolicies.RunInParallel` | serviceops_core/approval_policies.py:392-406 | the merging loop computes `Merge`, which `MergeMeaning` shows to keep meaning |
| `ApprovalPolicies.PlaceRow` | serviceops_core/approval_policies.py:359-382 | one row is refused, dropped or placed exactly as normalising and folding say |
| `ApprovalPolicies.PlaceRows` | serviceops_core/approval_policies.py:358-382 | all rows of a stage in turn, stopping at the first that nobody can approve |
| `ApprovalPolicies.BuildStages` | serviceops_core/approval_policies.py:346-389 | one pass equals resolve, fold, merge; refusals are exact; no stage is empty, nobody who must approve is asked again later, and with `skip_duplicates` off whatever satisfies the result satisfies the resolved policy |
| `ApprovalPolicies.CompileAsksOnce` | serviceops_core/approval_policies.py:379-382 | compiled stages are non-empty and anyone in an every-approver person stage appears in no later person stage; for the other modes see `NobodyAskedTwiceExactly` |
| `ApprovalPolicies.MergeAsksOnce` | serviceops_core/approval_policies.py:392-406 | merging keeps both |
| `ApprovalPolicies.MergeKeepsDisjoint` | serviceops_core/approval_policies.py:392-406 | merging neither makes nor removes a second request |
| `ApprovalPolicies.NobodyAskedTwiceExactly` | serviceops_core/approval_policies.py:74 | compiled person stages are pairwise disjoint, before and after merging, if and only if no row still asks, after folding, somebody of an earlier any-approver or majority stage |
| `ApprovalPolicies.SomebodyIsAskedTwice` | serviceops_core/approval_policies.py:74 | a witness: owning team any of {1, 2}, CI owners any of {2, 3}, and person 2 is asked twice |
| `ApprovalPolicies.MergeMeaning` | serviceops_core/approval_policies.py:392-406 | merged and unmerged stages are satisfied by the same sets of people |
| `ApprovalPolicies.PlaceIsSound` | serviceops_core/approval_policies.py:370-382 | after placing a stage, whoever satisfies the built list satisfies the stage as resolved |
| `ApprovalPolicies.PlaceIsComplete` | serviceops_core/approval_policies.py:379-382 | and the converse when folding keeps the stage's threshold |
| `ApprovalPolicies.StricterExactly` | serviceops_core/approval_policies.py:370 | when replacing a mode by another over the same people loses nothing: if and only if |
| `ApprovalPolicies.MajorityFoldExactly` | serviceops_core/approval_policies.py:422-431 | a partly overlapping majority stage keeps its meaning if and only if one person overlaps and an odd number remain |
| `ApprovalPolicies.MajorityFoldRaisesThreshold` | serviceops_core/approval_policies.py:422-431 | a witness: after a stage that {1, 2} must approve, a majority of {1, 2, 3} compiles to {3}, and the two no longer suffice |
| `ApprovalPolicies.CompiledImpliesResolved` | serviceops_core/approval_policies.py:354-431 | for every mode, compiled stages satisfied implies every resolved stage satisfied |
| `ApprovalPolicies.ResolvedImpliesCompiled` | serviceops_core/approval_policies.py:354-431 | the converse without a lossy majority overlap |
| `ApprovalPolicies.CompilePreservesMeaning` | serviceops_core/approval_policies.py:354-431 | folding plus merging lets through exactly the same sets of people |
| `ApprovalPolicies.DefaultModesPreserveMeaning` | serviceops_core/approval_policies.py:346-431 | the same for every policy without `majority` and without `skip_duplicates` |
| `ApprovalPolicies.CompiledAsksOnlyResolved` | serviceops_core/approval_policies.py:379-382 | compiling asks nobody the policy does not ask |
| `ApprovalPolicies.MergedAsksTheSame` | serviceops_core/approval_policies.py:392-406 | merging asks exactly the same people |
| `ApprovalPolicies.SatisfiedMonotone` | app.py:4496-4501 | further approvals never undo a satisfied stage, in any mode |
| `ApprovalPolicies.SkippedPairExactly` | serviceops_core/approval_policies.py:370-371 | a stage skipped after one over the same people keeps its say if and only if the earlier mode is at least as strict |
| `ApprovalPolicies.WeakSkipLosesMeaning` | serviceops_core/approval_policies.py:370 | an every-approver stage skipped after an any-approver stage over the same people: one person passes alone |
| `ApprovalChains.ApprovalChain.constructor` | app.py:4394-4420 | a started chain has a gate per stage with its mode and approvers, the first one open |
| `ApprovalChains.ApprovalChain.ActivateGate` | app.py:4376-4385 | the gate and all its votes become Requested, other gates stay |
| `ApprovalChains.ApprovalChain.CloseGates` | app.py:4475-4480 | waiting gates take the outcome, open votes close, cast votes stay |
| `ApprovalChains.ApprovalChain.RejectBallot` | app.py:4465-4480 | a rejection ends the chain and every other gate and open vote |
| `ApprovalChains.ApprovalChain.ApproveBallot` | app.py:4496-4514 | an approval completes the gate or not, opens the next gate or approves the chain |
| `ApprovalChains.ApprovalChain.DecideVote` | app.py:4458-4519 | refused without change or exactly the step; a valid chain stays valid with the same voters and strictly fewer open votes |
| `ApprovalChains.ApprovalChain.CancelChain` | app.py:3196-3206 | cancels a Running chain only, keeps the invariant |
| `ApprovalChains.ApprovalChain.SupersedeChain` | app.py:4184-4192 | supersedes a Running or Approved chain only, keeps the invariant |
| `ApprovalChains.CompleteMeansMet` | app.py:4496-4503 | the completion test on open votes is the meaning of the mode, both ways |
| `ApprovalChains.CreateInv` | app.py:4394-4420 | a new chain satisfies the invariant |
| `ApprovalChains.ApproveInv` | app.py:4496-4514 | an accepted approval concerns the current gate and keeps the invariant |
| `ApprovalChains.DecideInv` | app.py:4458-4514 | every accepted decision keeps the invariant and the voters, and rejects the chain exactly when it is a rejection |
| `ApprovalChains.DecideAcceptsExactly` | app.py:4461-4464 | a decision is accepted exactly for somebody being asked on the current gate of a Running chain; how the others are refused |
| `ApprovalChains.RejectionIsRecorded` | app.py:4465-4480 | the vote, gate and chain are Rejected, waiting gates Cancelled, open votes closed, cast votes kept |
| `ApprovalChains.ApprovalBelowMode` | app.py:4496-4503 | an approval that does not meet the mode changes that vote and nothing else |
| `ApprovalChains.ApprovalMeetsMode` | app.py:4504-4514 | one that meets it approves the gate, closes its open votes and opens the next gate for everybody, or approves the chain |
| `ApprovalChains.RetirementIsRecorded` | app.py:3196-3206 | what cancelling and superseding do to the chain, each gate and each vote |
| `ApprovalChains.CreateExactly` | app.py:4394-4414 | a chain is refused exactly without stages or with a stage nobody can approve; what a new one asks of whom |
| `ApprovalChains.EveryRunKeepsInv` | app.py:4458-4514 | every reachable Running chain has one current gate, Approved gates with their mode met before it and untouched gates after it; any other chain has no open vote |
| `ApprovalChains.DecisionClosesAVote` | app.py:4463-4514 | each accepted decision leaves strictly fewer open votes |
| `ApprovalChains.RunningHasOpenVote` | app.py:4496-4514 | a Running chain always has somebody whose approval or rejection is accepted |
| `ApprovalChains.AcceptedDecisionsAreBounded` | app.py:4458-4514 | a run of accepted decisions is no longer than the number of open votes it closes |
| `ApprovalChains.DecisionsReachAnOutcome` | app.py:4458-4514 | a run of decisions that cannot be continued has ended in Approved or Rejected |
| `ApprovalGuarantees.ApprovedMeansPolicySatisfied` | app.py:4394-4519 | over every run, a compiled chain that is Approved satisfies every resolved stage under its own mode by people whose votes are Approved |
| `ApprovalGuarantees.ApprovedMeansEveryStageApproved` | serviceops_core/approval_policies.py:346-436 | the same from `build_stages` on a whole policy with `skip_duplicates` off |
| `ApprovalGuarantees.CoalitionApproves` | app.py:4458-4519 | people who satisfy every remaining stage can bring a Running chain to Approved by themselves |
| `ApprovalGuarantees.ApprovingCoalitions` | app.py:4394-4519 | a set of people can bring a new chain to Approved alone if and only if it satisfies every stage |
| `ApprovalGuarantees.CompiledPolicyStarts` | app.py:4395-4397 | a compiled policy is never refused by chain creation, short of a zero person id |
| `ApprovalGuarantees.PolicyDecidesWhoCanApprove` | serviceops_core/approval_policies.py:354-436 | the groups that can get a record approved are exactly those that satisfy the resolved policy |
| `ApprovalGuarantees.DecisionAddsTheVoter` | app.py:4465 | the people whose vote is Approved grow by exactly the voter on Approve, and not at all on Reject |
| `ApprovalGuarantees.ApprovedMeansDecidedSo` | app.py:4458-4519 | over a whole run a person counts as having approved if and only if an Approve of that person was accepted |
| `PolicyConditions.StageDoesNotCount` | serviceops_core/approval_policies.py:313-327 | for a change type and CCB need outside a condition's list the policy gives exactly what it gives without the stage |
| `PolicyConditions.NoStageNoRoute` | serviceops_core/approval_policies.py:350-384 | without a policy, or with one none of whose stages counts, there is no route |
| `PolicyConditions.StageHasItsSay` | serviceops_core/approval_policies.py:313-382 | for those on the list nobody can bring the chain to Approved without somebody the stage asks, whatever the rest of the policy is |
| `PolicyConditions.StageWithoutApproverRefuses` | serviceops_core/approval_policies.py:360-369 | a stage that counts and finds nobody, not even through its fallback, refuses the whole policy |
| `PolicyConditions.RowOutcomeExactly` | serviceops_core/approval_policies.py:359-369 | which rows are dropped, refused or kept, and whom a kept one asks, fallback by fallback |
| `PolicyConditions.ModeAsksEnough` | serviceops_core/approval_policies.py:372-378 | every mode setting, with the team's own mode and the sole-approver rule, asks for what was configured |
| `PolicyConditions.SoleApproverMustApprove` | serviceops_core/approval_policies.py:377-378 | a sole approver of a stage that names particular people must approve, whatever the mode |
| `PolicyConditions.OneStagePolicy` | serviceops_core/approval_policies.py:354-389 | a policy of one stage starts, and the groups that can approve are exactly those with enough of the people it asks |
| `PolicyConditions.SourcesFold` | serviceops_core/approval_policies.py:71-75 | a second stage over the same people in the same mode disappears exactly for the seven sources that name particular people |
| `PolicyConditions.SourcesMerge` | serviceops_core/approval_policies.py:76-79 | neighbouring every-approver stages become one exactly for the five assessing sources |
| `PolicyConditions.TeamRowsSnoc` | serviceops_core/approval_policies.py:249-271 | one more team gets a row of its managers, or of nobody when inactive, unless it is covered or left out |
| `PolicyConditions.TeamSourcesExactly` | serviceops_core/approval_policies.py:221-271 | which teams a source lists, in which order, and what it covers |
| `ChangeGating.ChangeRecord.Transition` | app.py:3354-3400 | refused without change or exactly the transition, cancelling the chain with the ticket; keeps the gate invariant |
| `ChangeGating.ChangeRecord.Resubmit` | app.py:4181-4216 | supersedes the latest chain and starts a new one, or changes nothing when there is no route; keeps the gate invariant |
| `ChangeGating.SubmitKeepsGate` | app.py:4181-4216 | (re)submission keeps the gate invariant |
| `ChangeGating.BallotKeepsGate` | app.py:4458-4514 | an accepted vote belongs to the latest chain; the ticket is Approved exactly when that chain is |
| `ChangeGating.StepKeepsGate` | app.py:3209-3222 | every event keeps the gate invariant under every lifecycle table |
| `ChangeGating.EveryRunKeepsGate` | app.py:3354-3400 | so does every run |
| `ChangeGating.NoImplementationWithoutApproval` | app.py:3209-3222 | after the first submission, over every run: only the latest chain can be Running, and a ticket beyond Awaiting Approval, Rejected or Cancelled has an Approved latest chain whose policy is satisfied by people who approved it |
| `ChangeGating.ChainlessChangeStaysPut` | app.py:3211-3214 | a change without a chain keeps its state or is cancelled, over every run without a submission |
| `ChangeGating.TransitionAcceptedExactly` | app.py:3209-3222 | a transition is accepted if and only if chain state and table let the change go there, no required task is open for Resolved or Closed, and there is a review for Closed |
| `ChangeGating.DeleteAcceptedExactly` | serviceops_core/web/tickets.py:1384-1389 | a change is deleted exactly while New or Awaiting Approval, and is cancelled with its chain |
| `ChangeGating.BallotExactly` | app.py:4458-4514 | a vote changes its chain only, and the ticket with the chain's outcome |
| `ChangeGating.SubmitExactly` | app.py:4181-4216 | a submission is refused as its policy is, and otherwise supersedes the latest chain and adds one |
| `Outbox.StepKeepsInv` | app.py:2422-2543 | claims, visits, commits, crashes and time keep the protocol invariant |
| `Outbox.EveryRunKeepsInv` | app.py:2422-2543 | every interleaving keeps it |
| `Outbox.OutboxSafety` | app.py:2422-2543 | over all interleavings: no event has two live holders, each event and target has at most one settling record, attempts stay within 5, and a delivery nobody abandoned went out at most once |
| `Outbox.FinishedForever` | app.py:2423-2431 | Completed and Dead are absorbing |
| `Outbox.CompletedMeansAllSettled` | app.py:2496-2536 | an event completes only when every target of that pass is settled by a committed record, and dies only at the fifth failing pass |
| `Outbox.FinaliseOutcome` | app.py:2526-2543 | after a pass the event is Completed if and only if every target is settled by a committed record; otherwise Dead at the fifth attempt and in Retry before, due after 10, 20, 40, 80 or 160 seconds; no other event changes |
| `Outbox.StepsExactly` | app.py:2422-2432 | what enqueueing, claiming and crashing do to events, records and workers |
| `Outbox.ClaimableExactly` | app.py:2423-2428 | an event can be claimed exactly when it is Pending, in Retry or Processing and due |
| `Outbox.VisitExactly` | app.py:2438-2525 | a target with an earlier Delivered, or on a channel Skipped, record is passed by; otherwise the outcome is recorded and a delivery goes out |
| `Outbox.NoEventIsLost` | app.py:2416-2428 | after any run an unfinished event is claimable again within one lease |
| `Outbox.BackoffBounds` | app.py:2530-2532 | the delay lies between 10 and 300 seconds, never shrinks and at most doubles |
| `Outbox.DeliverOnce` | app.py:2429-2525 | one worker takes a due event and delivers it once to any target, before any commit |
| `Outbox.SettledIsNeverSentAgain` | app.py:2439-2442 | once a settling record is committed no run ever sends the delivery again |
| `Outbox.CanSendExactly` | app.py:2416-2525 | from every state of the protocol some run sends a delivery (again) if and only if no settling record is committed and the event is unfinished or a worker that has outlived its lease is still on its way to the target |
| `Outbox.CrashCanDeliverTwice` | app.py:2416-2421 | for every delivery that is out and not committed: after its worker crashes there is a run that sends it once more |
| `Outbox.CrashDeliversTwice` | app.py:2416-2421 | a witness from the empty outbox: one event goes out twice |
| `Outbox.LateCommitExactly` | app.py:2526-2543 | a commit keeps settling records unique if and only if nothing in the pass was settled meanwhile, and leaves finished events alone if and only if its event is unfinished |
| `Outbox.CleanLateCommitsAreSafe` | app.py:2435-2543 | with commits after the deadline allowed, every run keeps the protocol invariant and finished events, as long as nobody has taken over, finished or settled what is committed late |
| `Outbox.LateCommitRecordsTwice` | app.py:2435-2543 | a witness: a worker that commits after its deadline records a delivery a second time |
| `Workflows.WorkflowJob.RunExecution` | app.py:5879-5917 | the action loop, from the next action to a wait, an error or the end |
| `Workflows.WorkflowJob.RunWorkflow` | app.py:5864-5925 | starts or resumes one execution and completes it when its actions run through |
| `Workflows.WorkflowJob.RunMatches` | app.py:5847-5930 | the loop over workflows: skips completed ones, stops at a rate limit or a wait |
| `Workflows.WorkflowJob.Process` | app.py:5842-5955 | one pass commits or rolls back; what is committed only grows and stays a prefix of the straight-line run |
| `Workflows.PassKeepsWellFormed` | app.py:5842-5955 | every pass keeps: the log is the straight-line run up to the newest execution's next action |
| `Workflows.CompletedRanEverything` | app.py:5929-5932 | a Completed job has carried out the whole straight-line run |
| `Workflows.OfExpected` | app.py:5879-5917 | an execution has carried out exactly the actions before its next one, once each, in order |
| `Workflows.ResumptionRefinesStraightLine` | app.py:5836-5957 | all of this across any mix of waits, rate limits, rollbacks and retries, with at most 5 attempts |
| `Workflows.RunWorkflowsOutcome` | app.py:5847-5925 | a pass raises if and only if some workflow it gets to runs into a failing action before any wait |
| `Workflows.PassOutcome` | app.py:5842-5955 | how a pass ends, exactly: Retry or Dead after a rollback; otherwise Completed if and only if every workflow is done or runs through, Rate Limited or Waiting if and only if it gets to a limited workflow or a wait |
| `Workflows.QuietJobCompletes` | app.py:5836-5957 | once nothing is limited or fails any more, a job is Completed after at most one pass more than it has waits left |
| `Workflows.NewJobRunsThrough` | app.py:5836-5957 | a new job has then carried out the whole straight-line run |
| `Workflows.DueExactly` | app.py:5837-5839 | in which states a job is taken up; in the others it is left alone |
| `Workflows.RollbackReopensNewest` | app.py:5933-5947 | a rolled-back pass keeps no effect; a Completed execution is reopened if and only if it is the newest and the commit fails or the pass raises in a workflow without an execution of its own |
| `Workflows.OtherWorkflowFailsIt` | app.py:5857-5949 | a reachable job: a workflow that ran to the end is in Retry after another one failed once, and Failed after five times |
| `BusinessTime.ValidateCalendar` | serviceops_core/business_time.py:10-18 | accepts exactly the calendars with a known zone, weekdays within 0 to 6 and opening before closing |
| `BusinessTime.AddBusinessMinutes` | serviceops_core/business_time.py:21-43 | the loop computes `Due` for every start, duration and finite holiday set, whenever a whole minute fits into the opening hours |
| `BusinessTime.LoopEndsExactly` | serviceops_core/business_time.py:29-42 | for every valid calendar, start and duration the loop ends if and only if opening hours last at least 60 seconds |
| `BusinessTime.HalfAMinuteNeverEnds` | serviceops_core/business_time.py:17-42 | a witness: opening hours of 30 seconds are valid and the loop never ends |
| `BusinessTime.DueFits` | serviceops_core/business_time.py:27-43 | the result is the earliest time by which exactly that many whole minutes fit into opening hours, for opening times with seconds too |
| `BusinessTime.DueExactly` | serviceops_core/business_time.py:27-43 | no other time has this property |
| `BusinessTime.DeadlineIsEarliest` | serviceops_core/business_time.py:27-43 | opening on a whole minute, the result is the earliest minute of the clock at which exactly that many business minutes have elapsed, counted minute by minute |
| `BusinessTime.DeadlinesCompose` | serviceops_core/business_time.py:21-43 | opening on a whole minute, adding a then b minutes is adding a + b |
| `BusinessTime.DeadlinesComposeExactly` | serviceops_core/business_time.py:21-43 | adding a and then b is adding a + b, for every start and all a and b, if and only if the calendar opens on a whole minute or closes before a second minute could be worked from the truncated end of the first |
| `BusinessTime.AddsUpAfter` | serviceops_core/business_time.py:27-43 | for one start and first addition: it adds up with every second one, or already fails with one minute |
| `BusinessTime.HalfPastDoesNotAddUp` | serviceops_core/business_time.py:27 | a witness: Mondays from 09:00:30, a minute and another one are not two |
| `SlaClock.RecordSlas.SyncSlas` | app.py:4627-4673 | every row follows the record's state: pause, resume, complete, cancel |
| `SlaClock.RecordSlas.AttachSlas` | app.py:4551-4570 | starts a row for each applying definition that has none |
| `SlaClock.RecordSlas.RetargetSlas` | app.py:4579-4624 | replaces the rows of other priorities, carrying over the earliest start and the longest pause |
| `SlaClock.RecordSlas.ProcessBreaches` | app.py:5057-5071 | flags exactly the picked rows that are due and records one event for each |
| `SlaClock.TargetIsRight` | app.py:4558-4565 | the first target of a row, with a schedule and without |
| `SlaClock.AttachOncePerDefinition` | app.py:4551-4569 | each applying definition ends up with exactly one row that is not cancelled |
| `SlaClock.SyncExactly` | app.py:4627-4670 | what each record state does to a running row |
| `SlaClock.RetargetWithoutOutdated` | app.py:4589-4595 | a priority change that makes no running row outdated changes nothing |
| `SlaClock.RetargetOldRow` | app.py:4608-4624 | outdated rows are cancelled, all others follow the record's state |
| `SlaClock.RetargetNewRow` | app.py:4596-4624 | new rows are for the new priority or for all, and start when the first outdated row did |
| `SlaClock.EndedRowsStay` | app.py:4629-4630 | rows that have ended never change again |
| `SlaClock.BreachesExactly` | app.py:5060-5071 | a row is flagged exactly when it is picked, In Progress, not flagged yet and past its target, with one event |
| `SlaClock.StepKeepsInv` | app.py:4556-4670 | every step keeps target, stopwatch and breach accounts in agreement |
| `SlaClock.EveryRunKeepsInv` | app.py:4556-4670 | so does every run |
| `SlaClock.SlaClockIsRight` | app.py:4556-4670 | over every run the target less paused time is the start plus the duration, or with a schedule the earliest time by which the duration fits into opening hours; running rows tell the stopwatch's time; a breach is flagged at most once and only after the stopwatch reached what the target allows |
| `SlaClock.OnePauseMovesTarget` | app.py:4649-4665 | over a run with one pause the target moves by the length of the pause on the wall clock |
| `SlaClock.PauseKeepsBusinessTimeExactly` | app.py:4559-4563 | a scheduled SLA gets its business minutes despite a pause if and only if the stretches from pause to old target and from resumption to new target hold equally many; it gets fewer exactly when the later one holds fewer |
| `SlaClock.OvernightPauseLosesAnHour` | app.py:4657-4665 | a witness: eight business hours with an overnight pause are due after seven |
| `SlaClock.SingleReplacementIsExact` | app.py:4579-4624 | re-targeting one SLA at a time, also in mid-pause, neither loses nor double-counts a second |
| `SlaClock.BreachOnlyWhenDue` | app.py:5060-5065 | only the breach worker flags, only rows In Progress, never Paused ones, whose un-paused time reached what the target allows |
| `AuditChain.CheckRow` | app.py:720-743 | names the reason a row fails, and accepts exactly the rows that hold |
| `AuditChain.AuditTrail.Verify` | app.py:711-747 | sound exactly when every row holds; otherwise stops at the first that does not |
| `AuditChain.AuditTrail.Audit` | app.py:864-911 | appends one row signed with the active key onto the head; an accepted chain stays accepted |
| `AuditChain.AuditTrail.Rotate` | app.py:750-791 | refused on an unsound chain without change; otherwise pins the environment secret, activates the new key and leaves a valid trail |
| `AuditChain.RotationKeepsAccepted` | app.py:754-785 | rotation invalidates no earlier row |
| `AuditChain.AuditSigns` | app.py:883-911 | what is signed: a v3 row linked to the head, under the active key or the environment's; it fails only without that secret |
| `AuditChain.RotationExactly` | app.py:754-784 | a rotation keeps every stored secret, pins the environment's unless it was, and makes the new key active |
| `AuditChain.EveryRunIsAccepted` | app.py:750-911 | every run of audits and rotations leaves an accepted chain |
| `AuditChain.SecretChangeExactly` | app.py:662-673 | changing the configured secret keeps the chain accepted if and only if it is the same secret, it was pinned, or no row was signed with it |
| `AuditChain.HeadDeterminesChain` | app.py:711-747 | two accepted chains with the same head agree in length and in every payload that was hashed |
| `AuditChain.HeadDeterminesFields` | app.py:676-699 | field by field: action, time, event, request, target, tenant, user and link are equal, details, address and user agent up to absent text, from v2 on the key id, in v3 the security context |
| `AuditChain.UnprotectedFields` | app.py:693-705 | the security context is unprotected before v3, and the key id in legacy rows |
| `AuditChain.AlteredRowIsDetected` | app.py:711-747 | altering any protected field of a row while keeping the head fails verification |
| `Outages.ClipAll` | app.py:3264-3279 | clipped intervals lie in the window and cover exactly the units with an outage |
| `Outages.MergeSorted` | app.py:3281-3286 | merged intervals are separated and cover the same units |
| `Outages.SumLengths` | app.py:3287 | adds the lengths up |
| `Outages.LengthsCountUnits` | app.py:3287 | for separated intervals the sum of lengths is the number of units covered |
| `Outages.Downtime` | app.py:3264-3287 | the result is the number of distinct units of the window in which some outage is in effect, never more than the window |
| `Outages.WithinWindow` | app.py:3264-3288 | downtime is never more than the window length |
| `Outages.AvailabilityBounds` | app.py:3288-3289 | the rounded availability lies between 0 and 100 percent and is shown as 100 if and only if at most one unit in 200000 was down |
| `Outages.RoundsToNearest` | app.py:3289 | the rounding goes to the nearest value, and to the even one of two |
| `Outages.ShortOutageIsRoundedAway` | app.py:3289 | a witness: one second down in 200000 is shown as 100 percent |
| `RecordNumbers.ParseUndoesPrint` | app.py:1475-1479 | parsing undoes printing |
| `RecordNumbers.PrintedShape` | app.py:1479 | at least seven digits are printed, without a leading zero beyond that |
| `RecordNumbers.OrderIsNumeric` | app.py:1473-1474 | ordering by length and then text is numeric order, also past 9,999,999 |
| `RecordNumbers.LatestComesLast` | app.py:1473-1474 | the row found is the last one by length and text, for rows of any kind, and one is found exactly when there is one |
| `RecordNumbers.AllocatedCountsUp` | app.py:1468-1485 | after a last row with a number and room, allocations count up one by one |
| `RecordNumbers.AllocationsNeverCollide` | app.py:1468-1485 | whatever the rows look like, serialised allocations with rising fallbacks are new, different and strictly increasing in every run if and only if there is no row yet, or the last row carries a number and is not longer than the number printed after it, or it carries none and no printed number above the first fallback is in use |
| `RecordNumbers.SafeIsRoomy` | app.py:1473-1479 | where every row carries a number, that condition is: one of the longest rows is not longer than the number printed after it |
| `RecordNumbers.LatestIsLast` | app.py:1473-1474 | on rows padded in any way the row found is the longest and, among those, the one with the highest number; one is found exactly when there is one |
| `RecordNumbers.NextFollowsCurrent` | app.py:1475-1479 | the number printed is the one after the number in the row found |
| `RecordNumbers.NextComesLast` | app.py:1473-1479 | where every row carries a number, under that condition and only then the next number comes after every existing row |
| `RecordNumbers.LargestIsFoundExactly` | app.py:1469-1479 | the number returned exceeds every number in the column if and only if one of the longest rows carries the largest one |
| `RecordNumbers.StuckAllocator` | app.py:1473-1479 | when the row found is longer than the number printed after it, two allocations in a row hand out the same number |
| `RecordNumbers.CanonicalIsRoomy` | app.py:1468-1485 | a column the allocator filled itself meets both conditions |
| `RecordNumbers.ShortRowIsPassedOver` | app.py:1469-1479 | next to INC9999 the number after INC0000008 is INC0000009 |
| `RecordNumbers.LongRowBlocks` | app.py:1473-1479 | after INC00000123 the allocator hands out INC0000124 twice |
| `RecordNumbers.BarePrefixUsesFallback` | app.py:1473-1479 | a row that is the bare prefix leads to the fallback |
| `SourceArbitration.Precedence` | serviceops_core/ci_precedence.py:32-41 | configured known sources in order, then the missing ones in default order, each of those once |
| `SourceArbitration.Rank` | serviceops_core/ci_precedence.py:44-47 | the position of a listed source, below all of them otherwise |
| `SourceArbitration.ConfigurationItem.MarkChanged` | serviceops_core/ci_sources.py:47-59 | changed fields take the source, cleared ones lose theirs, others stay |
| `SourceArbitration.ConfigurationItem.ArbitrateField` | serviceops_core/ci_precedence.py:112-125 | one field is settled and its dispute reported with winner and loser |
| `SourceArbitration.ConfigurationItem.Arbitrate` | serviceops_core/ci_precedence.py:104-126 | every field is settled, every dispute is counted once and the first 200 are listed in field order |
| `SourceArbitration.DisputeNamesWinner` | serviceops_core/ci_precedence.py:120-125 | a dispute names both sources, and as kept the one the field names afterwards |
| `SourceArbitration.ReportedExactly` | serviceops_core/ci_precedence.py:111-125 | a field is reported if and only if its snapshot had a value from another source and the import changed it |
| `SourceArbitration.ConfigurationItem.ImportText` | serviceops_core/ci_precedence.py:104-126 | write, mark and arbitrate together are one import of the field, other fields stay |
| `SourceArbitration.HighestRankedWins` | serviceops_core/ci_precedence.py:104-126 | after any sequence of imports with it the field holds the text and source of an importer that outranks the others and shares its text with none, whatever texts and ranks those share |
| `SourceArbitration.WinnerExactly` | serviceops_core/ci_precedence.py:104-126 | an importer gets the field in every run if and only if it writes a text, outranks all others and shares its text with none of them |
| `SourceArbitration.ArbitrationIsOrderIndependent` | serviceops_core/ci_precedence.py:104-126 | all runs in which every importer writes end alike if and only if there is such an importer or all texts are empty |
| `SourceArbitration.EqualTextsDependOnOrder` | serviceops_core/ci_sources.py:53-58 | a witness: two importers with equal texts, and the outcome depends on their order |

## Left out

- Flask routes, templates, sessions, localisation, migrations and all JavaScript are not part of this model.
- SQL, locking and object mapping: each commit is one atomic step and queries read the current rows.
- Network calls: a delivery is a nondeterministic success, skip or failure.
- Who the approvers are: group members, managers and authorities of a stage are inputs.
- Approval delegation and change freezes: they only restrict who casts a vote and when.
- Stage names, notifications, history rows and other record types that use approval chains.
- ApprovalPolicies.CompiledImpliesResolved: skipped duplicates must each repeat a stage at least as strict; that is sufficient, and exact for the two stages compared (`SkippedPairExactly`), but a third stage may make a lossy skip harmless.
- ApprovalPolicies.CompilePreservesMeaning: the condition on majority overlaps is exact for one fold (`MajorityFoldExactly`); over a whole policy it is sufficient, since other stages may already imply the raised threshold.
- ChangeGating: the other fields of a ticket, and the `deleted_at` mark, are not part of this model; a failed resubmission is one rolled-back request.
- Outbox: in the main results a worker commits only while its lease runs; later commits are the subject of `LateCommitExactly` and `CleanLateCommitsAreSafe`. Batch size and order are left open, so any set of due events may be claimed; which targets are in force for an event, and in which order, is given per pass.
- Workflows: one worker, fixed published versions and matches; what raises and whether a commit fails is given per pass; compensation after the last failure and the times at which a job is due again are not part of this model.
- BusinessTime.AddBusinessMinutes: local wall-clock seconds; time zone conversion at both ends, daylight saving and fractions of a second are not part of this model. Stored schedules keep their times as five characters (serviceops_models.py:2283-2284), so their windows are whole minutes; the model also covers times with seconds, which `validate_calendar` accepts.
- SlaClock: overrides of client organisations and fractions of a second are not part of this model; scheduled definitions have a positive duration and a calendar for which deadlines exist. Several SLAs replaced at once inherit the earliest start and the longest pause, so their stopwatch has bounds instead of one reading.
- AuditChain: the hash functions are parameters and assumed collision-free where stated; decryption of stored keys always succeeds; rows of one tenant.
- Outages.AvailabilityBounds: real arithmetic in place of floating point.
- RecordNumbers.AllocationsNeverCollide: `int()` is modelled on plain digits; the prefix is not empty and has no wildcard characters; the fallback rises with every record stored.
- SourceArbitration.Precedence: splitting the setting at its commas is not part of this model.
