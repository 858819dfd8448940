# Verified model of the planning engine

The repository plans administrative procedures for citizens: a framework-free engine in `backend/planning` turns a detached
snapshot of curated knowledge and a set of answers into a next question, a plan or an inconclusive result, and
`backend/knowledge` decides what may enter that snapshot. This project models both in Dafny and proves what they promise.

- **Rules.** `Rules`, `RuleDecoder`, `RuleRoundTrip`, `Evaluator`: the bounded rule decoder refines a recursive reading and is the
  exact inverse of serialization; three-valued evaluation is monotone, typed, and its blame marks are sufficient explanations.
  `RuleLaws` and `EvaluatorLaws` write out the accepted documents, every diagnostic, and the value of every operator.
- **Cases.** `Facts`, `Calendar`, `CasePreparation`, `CaseProperties`, `Contradictions`: validation, derived Facts, and exactly
  which contradictions preparation lets through. `CalendarLaws` and `DerivedFacts` say what dates, texts and derived Facts mean.
- **The planning operation.** `Catalog`, `Trust`, `Tally`, `Guidance`, `Prerequisites`, `Routing`, `Versions`, `Questions`,
  `Planner`, with `Listed` (exactly when something is shown), `Questionnaire` (runs terminate), `PhaseOrder` (runs never go back),
  `DeadEnds` (what is unreachable) and `Examples` (a catalog small enough to follow by hand). `PlanOutcomes` gives the exact
  condition of a plan and of each reason for having none, over `TrustLaws`, `RowLaws`, `Listings`, `RoutingLaws`, `VersionLaws`
  and `ChoiceLaws`, which do the same for each phase.
- **Scope.** `Scope`, `ScopedPlanning`, `ServiceLoad`: planning on one service's dependency closure, under that scope's evidence
  history, is planning on the whole catalog. `ScopeLaws`: what that part holds.
- **Evidence.** `EvidenceReplay`, `TrustProjection`, `EvidenceWorkflow`, `AssertedClaims`: replaying a history equals a closed form
  per owner, and a claim with an open discrepancy is asserted by no plan, a doubted basis unlocking nothing. `ProjectedTrust` and
  `HistoryLaws`: what a history does to each claim, and which events it holds.
- **Publication.** `CycleCheck`, `Lifecycle`, `PublicationGates`, `QuestionCoverage`, `CoverageGates`, `Readiness`,
  `PublishedStores`: the invariants of every lifecycle run, the gates imply the loader, and a service whose candidates were
  published is always answered: no phase lacks a question, and only lost sources end in a configuration result.
  `LifecycleLaws`, `LoaderPolicy` and `CoverageLaws`: exactly when an action is refused, a row is loaded, and a gate reports.
- **Rate limiting.** `RateLimit`: exactly when a bucket is the number of calls made for it, and when the limit holds.

Code that works by changing state step by step is modelled as methods with loops, or as a class where it keeps state between
calls (`Workflow`, `Search`, `LifecycleService`, `Limiter`); each is proved against a specification function, and the promises
are proved about that function. A module whose name ends in `Laws`, or that is listed with one above, restates an operation by
conditions on its inputs, so that a different operation would violate them. Verify everything with `dafny verify dfyconfig.toml`.

Reading notes. The trust state the source calls `unknown` is `Unverified`, so that it is not confused with the truth value
`UNKNOWN`. Reason and diagnostic codes are datatypes instead of strings. Dates are (year, month, day) triples within Python's year
range; times in the limiter are reals. Timestamps of the evidence workflow are a UTC day and a time within it: the settings fix
the time zone to UTC, so the database's calendar cutoff and Python's `date()` agree. Dictionaries and sets that a loop fills are
`map` and `set` variables; iteration over a set is in arbitrary order and the results are proved independent of it.

Results worth knowing. The assertion in case preparation that its comment says cannot authorize behaviour can still be tripped,
exactly when a registry's derived definitions are compatible and it lists a pinned derived key as a source Fact
(`Contradictions.AssertionTripsExactlyIf`); that is about the function's own inputs, since the editing layer refuses to publish
a definition that differs from the pinned registry (`FactDefinition.save`, backend/knowledge/models.py:339-391). A contradiction
that is already TRUE on the empty form slips through, and only such a one: preparation accepts the empty form
(`Contradictions.SlipsThroughExactlyIf`, with an example).
A resolution stamped before its own opening leaves the discrepancy open for ever, a state the workflow can reach
(`EvidenceWorkflow.ResolvedTooEarlyStaysOpen`, `OpenAndResolve`). The limit on calls fails exactly for a key that is called more
often than the limit and again after a call two windows newer (`RateLimit.CappedExactlyIf`). A service with a candidate that went
through no gate can still end in a configuration result while choosing (`Readiness.ChoiceDefectExactlyIf`).

## Model

| member | source | states |
|---|---|---|
| `Calendar.AddCalendarMonthsMeaning` | backend/planning/case_preparation.py:85-92 | Adding months lands in the month that many later, keeps the day unless the month is too short and then takes its last day; it fails only past the year range. |
| `Calendar.AddCalendarMonthsMonotone` | backend/planning/case_preparation.py:85-92 | Clamped month addition never reorders two dates. |
| `Calendar.AddCalendarMonthsAdvances` | backend/planning/case_preparation.py:85-92 | Adding a positive number of months gives a strictly later date. |
| `Calendar.CompletedYearsMeaning` | backend/planning/case_preparation.py:78-82 | Completed years are at least n exactly when (birth year + n, month, day) is not after the evaluation date, for every n. |
| `Calendar.ReadBackIsoText` | backend/planning/rules.py:46-54 | Reading the ISO text of a date gives the date back. |
| `Calendar.IsoTextOfRead` | backend/planning/rules.py:79-94 | Any text accepted as a date is the ISO text of that date, so no second spelling is accepted. |
| `Facts.ValidateSubmittedFacts` | backend/planning/facts.py:185-207 | The accumulating loop returns the specified validation: diagnostics in key order, or all values. |
| `Facts.AcceptanceCopiesAll` | backend/planning/facts.py:185-207 | Acceptance is all-or-nothing: every submitted value unchanged, each defined, not derived and of the right kind. |
| `Facts.NoDiagnosticsMeansNoDefect` | backend/planning/facts.py:185-207 | A submission is accepted exactly when no single key has a defect. |
| `Facts.RejectionIsComplete` | backend/planning/facts.py:185-207 | A rejection names every defective key exactly once with its own defect, in strictly increasing key order, and no other key. |
| `RuleDecoder.ValidateRule` | backend/planning/rules.py:97-238 | The work-list decoder (explicit stack, record ids, 128-node cap, bottom-up rebuild) returns what the recursive reading returns: the same diagnostics in the same order, and the predicate only when there are none. Its invariants say child ids exceed the parent's, the cap diagnostic hides every truncated child list, and no record is missing in the rebuild. |
| `RuleDecoder.ReadNode` | backend/planning/rules.py:117-224 | One node adds exactly the diagnostics of that node, fills its record and pushes its children; pending nodes plus read nodes stay the authored pre-order. |
| `RuleDecoder.PushChildren` | backend/planning/rules.py:169-178 | Children are pushed in reverse with fresh consecutive ids above every id handed out so far, at most as many as can still be visited. |
| `RuleDecoder.Rebuild` | backend/planning/rules.py:229-238 | Filling the array backwards yields at every index the predicate of that record's subtree; the missing-record branch is dead. |
| `RuleDecoder.CapReached` | backend/planning/rules.py:118-123 | Reaching the cap means the rule has more than 128 nodes, so it is refused however its children were truncated. |
| `RuleRoundTrip.AcceptedExactlyIfSerialized` | backend/planning/rules.py:34-54 | Both directions: a raw rule is accepted as p exactly when p is well typed under the registry, has at most 128 nodes and serializes to that raw rule. |
| `RuleRoundTrip.PredicateOrDiagnostics` | backend/planning/rules.py:226-238 | A predicate comes back exactly when there is no diagnostic, and more than 128 nodes always gives rule_too_large. |
| `RuleRoundTrip.LiteralRoundTrip` | backend/planning/rules.py:79-94 | Decoding an encoded literal of the right kind gives it back. |
| `Evaluator.UnknownExactlyIfMissing` | backend/planning/evaluator.py:61-142 | A validated predicate is UNKNOWN exactly when its missing set is non-empty, and it only ever misses Facts it mentions that have no value; which value it has otherwise stands in the EvaluatorLaws rows. |
| `Evaluator.DecidedStays` | backend/planning/evaluator.py:61-115 | With more values, and `exists` keys seeing the same submissions, a decided predicate keeps its value. |
| `Evaluator.MissingDecides` | backend/planning/evaluator.py:61-142 | Supplying all missing Facts decides an UNKNOWN predicate. |
| `Evaluator.OtherFactsDoNotDecide` | backend/planning/evaluator.py:61-142 | Supplying only other Facts leaves it UNKNOWN. |
| `Evaluator.BlameSuffices` | backend/planning/evaluator.py:51-94 | Re-evaluating on any subset of the answers that keeps the influential submitted keys gives the same decided value. |
| `Evaluator.NoBlameMeansNoAnswersNeeded` | backend/planning/evaluator.py:51-94 | A decided predicate that blames no answer has the same value on the empty form. |
| `Evaluator.BlameIsSubmitted` | backend/planning/case_preparation.py:106-118 | Only submitted keys are ever blamed. |
| `Evaluator.NothingDecidesNothing` | backend/planning/evaluator.py:97-168 | A predicate without `exists` is UNKNOWN on the empty form. |
| `Evaluator.TypedNeverRaises` | backend/planning/evaluator.py:117-168 | An accepted rule over values of their definitions never compares different kinds and never fails an assertion. |
| `Evaluator.SameKindEquality` | backend/planning/evaluator.py:144-146 | Within one definition Python equality (True == 1) is plain equality. |
| `CasePreparation.PrepareCase` | backend/planning/case_preparation.py:121-252 | The loops of preparation compute the specified outcome: configuration defect, assertion, invalid case or prepared Facts. |
| `CasePreparation.ReferencedFactKeys` | backend/planning/case_preparation.py:95-103 | The stack walk collects exactly the Facts the predicate mentions. |
| `CasePreparation.CollectInfluentialKeys` | backend/planning/case_preparation.py:106-118 | The stack walk collects exactly the submitted keys reached through affecting trace nodes. |
| `CasePreparation.DeriveFacts` | backend/planning/case_preparation.py:157-221 | The derivation loop over the pinned keys, with its early returns, computes the specified values and missing sources; what each value is stands in the DerivedFacts rows. |
| `CasePreparation.CheckContradictions` | backend/planning/case_preparation.py:223-241 | The contradiction loop fails on an ill-declared contradiction and otherwise unions the blamed keys. |
| `CaseProperties.PreparationMeaning` | backend/planning/case_preparation.py:121-252 | Successful preparation keeps every answer, adds exactly the derivable pinned Facts, and records the omitted sources of the others; what the added values are stands in the DerivedFacts rows. |
| `CaseProperties.PreparationExtends` | backend/planning/case_preparation.py:157-221 | With more answers every earlier prepared value is still there, unchanged. |
| `CaseProperties.PreparedValuesMatch` | backend/planning/case_preparation.py:145-221 | Every prepared value, derived ones included, matches its definition. |
| `CaseProperties.AcceptedRulesNeverRaise` | backend/planning/rules.py:180-224 | A rule accepted under a registry never raises on Facts prepared under the same registry. |
| `CaseProperties.DeadlinePassedImpliesExpired` | backend/planning/case_preparation.py:172-214 | renewal_deadline_passed implies card_expired_before_evaluation_date. |
| `Contradictions.AcceptedContradictionNeedsNoAnswer` | backend/planning/case_preparation.py:223-252 | A contradiction that holds in an accepted case already holds on the empty form and uses `exists`; without `exists` an accepted case has no contradiction. |
| `Contradictions.SlipsThroughExactlyIf` | backend/planning/case_preparation.py:121-252 | Preparation accepts some case in which a contradiction holds exactly when the registry and contradictions are well configured and the condition is TRUE on the empty form; without the latter every such case is rejected. |
| `Contradictions.EmptyFormIsPrepared` | backend/planning/case_preparation.py:121-252 | In a well-configured registry the empty form is accepted with no values, whatever the contradictions say of it. |
| `Contradictions.EnforcedExactlyIfNotTrueOfNothing` | backend/planning/case_preparation.py:240-243 | The blame part of that: a TRUE condition is blamed on some answer, on all values and submissions, exactly when it is not TRUE on the empty form. |
| `Contradictions.UnblamedContradictionExample` | backend/planning/case_preparation.py:223-252 | The input that slips through: 'neither of two answers given' is a well-declared contradiction, and preparation accepts the empty form, where it is TRUE. |
| `Trust.AssertedExactlyIf` | backend/planning/trust.py:36-96 | Material is asserted exactly when it is current, in force, established by the day and not overdue. |
| `Trust.SupportedExactlyIf` | backend/planning/provenance.py:37-70 | A claim has supporting sources exactly when some current link sustains it and no counted link contradicts it. |
| `Trust.CollectSupportingSources` | backend/planning/provenance.py:37-70 | The loop over links and sources computes the specified supporting sources. |
| `Trust.CollectClaimSources` | backend/planning/provenance.py:73-86 | The loop collects the sources of all supporting links, last one of an id winning, in id order. |
| `Tally.TotalAsks` | backend/planning/checklists.py:40-121 | A Fact is missing after a selection exactly when some row asked for it. |
| `Tally.TotalShows` | backend/planning/checklists.py:40-121 | An item is shown by a selection exactly when some row showed it. |
| `Tally.TotalTrusted` | backend/planning/eligibility_bases.py:60-141 | A basis is trusted exactly when some row trusted it. |
| `Tally.TotalFlags` | backend/planning/steps.py:40-106 | Each of the four flags, the trust-inconclusive one among them, is raised exactly when some row raised it. |
| `Guidance.SelectChecklistItems` | backend/planning/checklists.py:26-121 | The accumulating loop is the total of its rows' effects in display order. |
| `Guidance.SelectSteps` | backend/planning/steps.py:26-106 | The same for steps, in phase and slot order. |
| `Guidance.SelectFees` | backend/planning/fees.py:26-149 | The same for fees. |
| `Listed.ChecklistListedExactlyIf` | backend/planning/checklists.py:40-121 | An item is listed exactly when it is in scope, in force, applicable, trustworthy, and backed by (for official requirements, official) evidence nobody contradicts. |
| `Listed.StepListedExactlyIf` | backend/planning/steps.py:40-106 | The same, exactly, for a step. |
| `Listed.FeeValueShownExactlyIf` | backend/planning/fees.py:47-149 | A fee's authored figures are shown exactly when they may be stated, and then unchanged; any other shown fee shows none. |
| `Listed.BasisUnlocksExactlyIf` | backend/planning/eligibility_bases.py:60-141 | A basis unlocks guidance exactly when both stages hold and its claim is trustworthy and backed. |
| `Listed.DecidableMeans` | backend/planning/dependencies.py:55-124 | A dependency may be decided exactly when it is in force, blocking, has a satisfaction rule, applies, and its claim is trustworthy and backed. |
| `Listed.DependencyDecidedExactlyIf` | backend/planning/dependencies.py:55-160 | A dependency is satisfied, blocking or unsupported exactly when it may be stated and its rule holds, or fails with the target in force, or fails with the target unavailable. |
| `Listed.DependencyInconclusiveExactlyIf` | backend/planning/dependencies.py:80-160 | It is shown as inconclusive exactly when it is not trustworthy and not ruled out, or when it fails while its target's versions conflict. |
| `Guidance.ListWarnings` | backend/planning/warnings.py:19-83 | The loop lists the specified warnings in display order. |
| `Listed.WarningListedExactlyIf` | backend/planning/warnings.py:19-83 | An ordinary warning is listed exactly when it is in force, applies, is trustworthy and, if administrative, backed; other kinds and product warnings with evidence never are. |
| `Listed.RegenerationIsAlwaysListed` | backend/planning/warnings.py:30-48 | The well-formed regeneration notice is in every plan's warnings, whatever the case and its trust. |
| `Listed.ChecklistListsShownRows` | backend/planning/checklists.py:40-121 | The ids a checklist lists are exactly those of the authored rows that are shown. |
| `Listed.StepsListShownRows` | backend/planning/steps.py:40-106 | The same for steps. |
| `Prerequisites.SelectEligibilityBases` | backend/planning/eligibility_bases.py:45-141 | The two-stage loop over bases is the total of its rows' effects. |
| `Prerequisites.SelectProcedureDependencies` | backend/planning/dependencies.py:43-165 | The loop over dependencies is the total of its rows' effects. |
| `Routing.RouteServicePoints` | backend/planning/routing.py:16-151 | The loop over associations with its source-collecting closure and final sort computes the specified routing. |
| `Routing.DestinationIsCurrent` | backend/planning/routing.py:56-141 | Every destination rests on a current association and a current material version of the ids it names. |
| `Versions.ResolveProcedureVersion` | backend/planning/versions.py:89-180 | The scanning loops compute the specified resolution. |
| `Versions.ScanVersions` | backend/planning/versions.py:116-142 | The scan collects every version's defects and the ids of the defective ones. |
| `Versions.FindConflicts` | backend/planning/versions.py:144-153 | The nested loop finds exactly the published versions that overlap another one. |
| `Versions.OverlapExactlyIfSharedDay` | backend/planning/versions.py:77-87 | Two ordered intervals overlap exactly when they share a day. |
| `Versions.ResolvedExactlyIfInForce` | backend/planning/versions.py:170-180 | Without a defect the resolver returns a version exactly when one is published and in force, and then that one. |
| `Versions.AtMostOneApplies` | backend/planning/versions.py:144-170 | Without conflicts at most one published version applies on any day. |
| `Questions.ExpandMissing` | backend/planning/questions.py:91-119 | In whatever order the set is walked, the loop collects exactly the source Facts and defects of the missing keys. |
| `Questions.PickedCovers` | backend/planning/questions.py:118-142 | A picked question is the first, in (priority, id) order, of the service's questions that resolve a source Fact sought. |
| `Questions.AlwaysACandidate` | backend/planning/questions.py:131-142 | Asked for a non-empty missing set, neither profile ends with no_source_fact or an empty minimum. |
| `Questionnaire.EveryQuestionIsOpen` | backend/planning/operation.py:89-229 | Every question returned names only defined source Facts, at least one of them unsubmitted. |
| `Questionnaire.SettledIsNotAsked` | backend/planning/questions.py:82-172 | A fully answered question is never asked again. |
| `Questionnaire.RoundsAskDistinctQuestions` | backend/planning/operation.py:52-271 | The rounds of a run ask pairwise different questions. |
| `Questionnaire.RunsAreBounded` | backend/planning/operation.py:52-271 | The questionnaire terminates: a run has at most as many rounds as the service has questions. |
| `PhaseOrder.QuestionsNeverGoBack` | backend/planning/operation.py:89-229 | When answers are only added (rules without `exists`, or whose `exists` keys see the same submissions) no question comes from an earlier phase than any earlier stop. |
| `PhaseOrder.ChosenProcedureIsStable` | backend/planning/selection.py:96-119 | A chosen procedure never changes: later answers keep it or make the case itself invalid. |
| `PhaseOrder.ChoiceStays` | backend/planning/selection.py:96-119 | Once a procedure is chosen, or choice is impossible, more values change nothing. |
| `PhaseOrder.ExistsFreeSnapshotIsSteady` | backend/planning/evaluator.py:117-127 | A snapshot without `exists` tests meets the premise whatever is submitted. |
| `PhaseOrder.BasesStay` | backend/planning/eligibility_bases.py:45-141 | Bases that ask nothing keep asking nothing and keep unlocking the same guidance. |
| `PhaseOrder.PreparedGrows` | backend/planning/case_preparation.py:157-221 | Adding answers only adds prepared values. |
| `PhaseOrder.ResolvedIsStored` | backend/planning/versions.py:98-172 | What the resolver returns is stored, published and of the procedure asked for. |
| `DeadEnds.DeadEndsAreNotReached` | backend/planning/operation.py:111-113 | With validated rules no result is procedure_version_applicability_unknown or fee_applicability_unknown, and the operation raises only on a registry that names a pinned derived key as a source Fact. |
| `Contradictions.AssertionTripsExactlyIf` | backend/planning/case_preparation.py:161-166 | Some submission trips preparation's assertion exactly when the derived definitions are compatible but a pinned derived key is registered as a source Fact. |
| `DeadEnds.StepsUndecidedExactlyIf` | backend/planning/steps.py:59-88 | step_applicability_unknown stays reachable: the flag is raised exactly when an in-scope step is UNKNOWN and cannot be trusted or backed. |
| `DeadEnds.ItemsUndecidedExactlyIf` | backend/planning/checklists.py:71-107 | The same for the checklist: the flag is raised exactly when an official item in scope and in force is UNKNOWN and cannot be trusted or backed. |
| `DeadEnds.FeesAreDecidedOrAsked` | backend/planning/fees.py:87-91 | With validated rules a fee is never left undecided without a Fact to ask for. |
| `DeadEnds.ChoiceNeverRaises` | backend/planning/selection.py:96-132 | With validated selection rules choosing never runs out of questions. |
| `Examples.AsksThenPlans` | backend/planning/operation.py:52-271 | A one-question catalog asks without answers and plans with the answer, so the premises of the theorems about questions and plans are met. |
| `Scope.DiscoverProcedureGraph` | backend/knowledge/planning_scope.py:44-62 | For lookups that distribute over unions, on any finite graph with cycles, the loop terminates with exactly the procedures a dependency path reaches and exactly their versions. |
| `ScopedPlanning.LoadScoped` | backend/knowledge/planning_scope.py:65-135 | Discovery over a catalog returns a closed set of procedures, exactly the reachable ones, and the restricted snapshot. |
| `ScopedPlanning.ScopedPlanIsFullPlan` | backend/knowledge/planning_scope.py:44-104 | Planning on the snapshot restricted to any closed set gives exactly the result of planning on the full snapshot, targets without public versions included. |
| `ScopedPlanning.SameResolution` | backend/planning/versions.py:98-114 | A target in scope resolves alike in both, or is unavailable in both. |
| `ScopedPlanning.SameServicePoints` | backend/planning/routing.py:16-151 | Dropping points and materials no kept association mentions changes no routing. |
| `ServiceLoad.ScopedLoadPlansTheSame` | backend/knowledge/evidence_workflow_temporal.py:243-262 | Restricted snapshot under the scope's evidence history, or full snapshot under the full history: the same plan. |
| `ServiceLoad.PlanService` | backend/knowledge/evidence_workflow_temporal.py:243-262 | Discover, load, replay the scope's history and plan: the result is that of the whole catalog under its whole history. |
| `ServiceLoad.RestrictMapped` | backend/knowledge/evidence_workflow_temporal.py:210-219 | Projecting trust commutes with restricting the snapshot. |
| `EvidenceReplay.OwnTrustMeans` | backend/knowledge/evidence_trust_projection.py:93-132 | Closed form of one owner's trust: the most severe open state, else the last event's state; the re-verify date and the evidence state and dates as the last review left them; the verification day the latest vouched for since; the failing lookup exactly when only unranked states are open. |
| `EvidenceReplay.OpenNowMeans` | backend/knowledge/evidence_trust_projection.py:98-114 | A discrepancy is open exactly when the last transition about it opened it. |
| `EvidenceReplay.VerifiedOnMeans` | backend/knowledge/evidence_trust_projection.py:111-126 | The verification day is the latest day vouched for from the last review on. |
| `EvidenceReplay.TrackDiscrepancy` | backend/knowledge/evidence_trust_projection.py:98-114 | The nested dictionary of open discrepancies stays exactly each owner's open ones, owners with none dropped. |
| `EvidenceReplay.ReplayOne` | backend/knowledge/evidence_trust_projection.py:96-126 | One turn of the replay keeps every owner's overlay equal to the closed form of its own events. |
| `EvidenceReplay.GivePrecedence` | backend/knowledge/evidence_trust_projection.py:128-132 | The final pass yields the closed-form overlays, or fails exactly where the precedence lookup finds nothing. |
| `TrustProjection.ProjectEvidenceTrust` | backend/knowledge/evidence_trust_projection.py:81-171 | The rebuilding loops compute the specified projection, or fail where replay does; what it does to each claim and its links stands in ProjectedTrust.ProjectedFollows. |
| `TrustProjection.ProjectionKeepsAuthored` | backend/knowledge/evidence_trust_projection.py:133-171 | Stripped of trust, the projected snapshot is the stripped original: same rows, same order, same identities. |
| `TrustProjection.ForeignHistoryChangesNothing` | backend/knowledge/evidence_trust_projection.py:133-171 | Events of owners outside the snapshot change nothing in it. |
| `TrustProjection.ForeignHistoryMattersExactlyIf` | backend/knowledge/evidence_trust_projection.py:128-132 | Dropping foreign history leaves the outcome as it was exactly when no foreign owner fails the lookup, or the snapshot's own history fails it anyway. |
| `TrustProjection.WorkflowHistoryReplays` | backend/knowledge/evidence_workflow.py:410-411 | Histories whose discrepancies were opened with an allowed outcome never fail the lookup. |
| `EvidenceWorkflow.Workflow.Open` | backend/knowledge/evidence_workflow.py:389-429 | Opening refuses missing or mixed evidence and conclusive outcomes, and otherwise stores an open row and its captured transition. |
| `EvidenceWorkflow.Workflow.Save` | backend/knowledge/evidence_workflow_temporal.py:78-143 | Saving is refused exactly on the listed violations, and captures a transition exactly when the row becomes resolved. |
| `EvidenceWorkflow.Workflow.Resolve` | backend/knowledge/evidence_workflow.py:432-454 | Only an open discrepancy resolves, once, with its transition. |
| `EvidenceWorkflow.Workflow.Record` | backend/knowledge/evidence_workflow.py:457-549 | A re-verification is appended exactly when the interval, successor, evidence and draft rules hold. |
| `EvidenceWorkflow.ReadScopedHistory` | backend/knowledge/evidence_workflow_temporal.py:157-207 | Reading the two tables with cutoff and scope and sorting by (time, kind, key) gives the specified history. |
| `EvidenceWorkflow.ScopedHistoryIsItsPart` | backend/knowledge/evidence_workflow_temporal.py:157-207 | Filtering the tables first gives the scope's part of the full history, in the same order. |
| `EvidenceWorkflow.ReplaySeesOpenExactlyIf` | backend/knowledge/evidence_workflow_temporal.py:157-207 | In every state of the workflow, the replay for a day sees a discrepancy open exactly when it was opened by that day and not resolved by it at or after its opening. |
| `EvidenceWorkflow.ResolvedTooEarlyStaysOpen` | backend/knowledge/evidence_workflow_temporal.py:157-207 | Opened and then resolved with an earlier stamp, a discrepancy is in a consistent state of the workflow and open on every day from its opening, and its claim is not current on any of them. |
| `EvidenceWorkflow.OpenAndResolve` | backend/knowledge/evidence_workflow.py:432-453 | The workflow reaches that state for every owner, outcome and pair of moments. |
| `EvidenceWorkflow.OpenIsNotCurrent` | backend/knowledge/evidence_trust_projection.py:128-132 | While a discrepancy is open on a day its claim is not current on that day, whatever was reviewed meanwhile. |
| `AssertedClaims.PlanIsMade` | backend/planning/operation.py:98-271 | Every part of a plan - checklist, steps, warnings, fees, bases with their guidance, inconclusive bases, dependencies, routing - is the selection over one stored version; when there is a plan at all stands in PlanOutcomes.PlannedExactlyIf. |
| `AssertedClaims.PlansAssertUndoubted` | backend/planning/operation.py:98-271 | On a snapshot under replayed overlays: no checklist item, step, warning, fee amount, decided dependency or destination of a plan belongs to a claim whose replayed state is not current; no such basis is trusted; none of the listed items, steps and fees hangs on one; a listed one is reported inconclusive. Only the regeneration notice is exempt. |
| `AssertedClaims.OpenDiscrepancyIsNeverAsserted` | backend/planning/trust.py:75-76 | While a workflow discrepancy is open on the day, no plan of that day asserts its claim, in any of the eight kinds of owner; a doubted basis is not trusted and no listed item, step or fee hangs on it. |
| `CycleCheck.HasBlockingCycle` | backend/knowledge/procedure_dependencies.py:139-160 | True exactly when the blocking dependencies contain a directed cycle; terminates on every graph. |
| `CycleCheck.Search.Visit` | backend/knowledge/procedure_dependencies.py:148-158 | A visit that returns true found a cycle; one that returns false leaves a closed, cycle-free visited set and the visiting set as it was. |
| `Lifecycle.OverlapQueryFindsOverlaps` | backend/knowledge/publication.py:253-265 | The filtered query finds exactly the published versions of the procedure that the resolver calls overlapping. |
| `Lifecycle.LifecycleService.PublishVersion` | backend/knowledge/publication.py:631-797 | Publishing runs every gate, changes nothing unless all pass, and then moves the draft on with its audit event. |
| `Lifecycle.LifecycleService.WithdrawVersion` | backend/knowledge/publication.py:800-836 | Only a published version is withdrawn, with its audit event. |
| `Lifecycle.RunGates` | backend/knowledge/publication.py:544-557 | The failure set holds exactly the failing gates, the cycle check over published and candidate dependencies among them. |
| `Lifecycle.InvariantOfRuns` | backend/knowledge/publication.py:631-836 | After every run of creating, saving, deleting, publishing and withdrawing: audit trails match states, published intervals of a procedure are pairwise disjoint, and the published dependency graph has no cycle. |
| `Lifecycle.PublicVersionsStayThroughRuns` | backend/knowledge/models.py:201-228 | A public version is never deleted or changed and only moves from published to withdrawn. |
| `Lifecycle.ResolverNeverReportsADefect` | backend/planning/versions.py:144-180 | In every reachable store the resolver never reports a defect, resolves exactly when a published version is in force, and returns that one. |
| `PublicationGates.CheckEvidence` | backend/knowledge/service_point_routing.py:251-307 | The evidence loop reports exactly the link failures and whether adequate and official support exist. |
| `PublicationGates.ValidateChecklist` | backend/knowledge/publication.py:271-358 | The checklist gate reports exactly the failures of its rows. |
| `PublicationGates.ValidateGuidance` | backend/knowledge/publication.py:364-489 | The guidance gate is silent exactly when every step and warning has its texts, an ordered interval, a rule that decodes, its metadata, clean links and the support it needs, and guidance comes with exactly one regeneration notice; otherwise it reports exactly the failures of its rows. |
| `PublicationGates.ValidateFees` | backend/knowledge/fees.py:253-395 | The fee gate reports the regeneration-warning rule and exactly the failures of its fees. |
| `PublicationGates.ValidateRouting` | backend/knowledge/service_point_routing.py:313-491 | The routing gate checks each shared material once and still reports exactly the failures of all associations and materials. |
| `PublicationGates.RoutingEvidenceIsAdequate` | backend/knowledge/snapshot_policy.py:571-594 | The early-returning loop accepts exactly evidence with every link complete and uncontradicted and one current support. |
| `PublicationGates.ChecklistPasses` | backend/knowledge/snapshot_policy.py:313-321 | A checklist row its gate passes is one the loader accepts. |
| `PublicationGates.StepPasses` | backend/knowledge/snapshot_policy.py:323-333 | The same for a step; when the loader accepts one stands in LoaderPolicy.StepLoadsExactlyIf. |
| `PublicationGates.FeePasses` | backend/knowledge/snapshot_policy.py:335-357 | The same for a fee; see LoaderPolicy.FeeLoadsExactlyIf. |
| `PublicationGates.WarningPasses` | backend/knowledge/snapshot_policy.py:359-368 | The same for a warning; see LoaderPolicy.WarningLoadsExactlyIf. |
| `PublicationGates.BasisPasses` | backend/knowledge/snapshot_policy.py:490-524 | The same for an eligibility basis. |
| `PublicationGates.DependencyPasses` | backend/knowledge/snapshot_policy.py:527-568 | The same for a dependency. |
| `PublicationGates.AssociationPasses` | backend/knowledge/snapshot_policy.py:605-626 | The same for a service-point association. |
| `PublicationGates.MaterialPasses` | backend/knowledge/snapshot_policy.py:627-646 | The same for shared service-point material. |
| `PublicationGates.GatesImplyLoader` | backend/knowledge/snapshot_policy.py:247-427 | A version every gate is silent about is one the request-time loader accepts whole; what each gate reports and what the loader accepts, exactly, stands in the LoaderPolicy rows. |
| `PublishedStores.StillDecodes` | backend/knowledge/domain.py:89-95 | A stored rule that decodes under a registry decodes to the same predicate under every registry that extends it. |
| `PublishedStores.StillLoads` | backend/knowledge/models.py:374-398 | A version the loader accepts it still accepts after the registry has grown; published Fact definitions can neither change nor go. |
| `PublishedStores.PublicIsVetted` | backend/knowledge/publication.py:631-797 | Whatever authored property every publication of a run was checked for holds of every public version of the store reached. |
| `PublishedStores.PublicVersionsLoad` | backend/knowledge/snapshot_policy.py:247-427 | Every public version of every store reached by gated publications is one the loader accepts, also under a registry that has grown since. |
| `QuestionCoverage.SourceFactKeys` | backend/knowledge/eligibility_bases.py:45-67 | The loop collects exactly the source Facts behind the rules and the keys without sound sources. |
| `QuestionCoverage.CoverageMeansEachRule` | backend/knowledge/publication.py:206-235 | Empty coverage reports mean, in both directions, that every source Fact behind every rule has a service question. |
| `CoverageGates.CheckApplicability` | backend/knowledge/publication.py:163-235 | The applicability gate's report over the version's rule and those of its official items, steps and fees in the supported scopes: undecoded rules, unsound dependencies, invalid question Facts, Facts without a question. |
| `CoverageGates.CheckBases` | backend/knowledge/eligibility_bases.py:75-232 | The basis gate's report on basis owners, deciding rules and Facts without a question. |
| `CoverageGates.CheckDependencies` | backend/knowledge/procedure_dependencies.py:177-356 | The dependency gate's report on the relation, deciding rules and Facts without a question. |
| `CoverageGates.CheckSelection` | backend/knowledge/selection_questions.py:40-80 | The selection gate's report on the procedure's candidate rules, derived Facts followed to their sources. |
| `CoverageGates.SilentExactlyIf` | backend/knowledge/publication.py:190-235 | A report on rules is empty exactly when each of them decodes and has a question for every source Fact behind it. |
| `CoverageGates.DependenciesAreSources` | backend/knowledge/selection_questions.py:16-37 | The recursive expansion of a derived Fact stops after one step, at the pinned sources. |
| `CoverageGates.SilentGatesCover` | backend/knowledge/publication.py:163-235 | When every gate is silent, all consequential rules of the version are covered and every question of the service names source Facts only. |
| `CoverageGates.SilentSelectionCovers` | backend/knowledge/selection_questions.py:45-80 | When the selection gate is silent too, so are the candidate rules of the procedure. |
| `QuestionCoverage.CoveredIsAsked` | backend/planning/questions.py:82-172 | Asked for missing Facts of covered rules, the planner always returns a question. |
| `Questions.PickedExactlyIf` | backend/planning/questions.py:82-172 | For a non-empty missing set, under either profile, a question is found exactly when every missing Fact expands to source Facts that questions of the service resolve. |
| `QuestionCoverage.CoveredVersionsAlwaysAsk` | backend/planning/operation.py:106-229 | For a covered version, each phase that lacks Facts - applicability, bases, dependencies, checklist, steps, fees - has a question. |
| `Readiness.ChoiceDefectExactlyIf` | backend/planning/selection.py:76-132 | Choosing ends in a configuration result exactly when at most one candidate matches and an undecided one misses a Fact no question leads to. |
| `Readiness.BasesInvalidExactlyIf` | backend/planning/eligibility_bases.py:60-141 | Weighing bases of a gated version is invalid exactly when a basis applies and is current while no current source supports it. |
| `Readiness.GatedCasesAreAnswered` | backend/planning/operation.py:60-271 | With silent gates the operation answers every prepared case with a plan, a question or a reason, except exactly where the chosen procedure's versions conflict or a basis or dependency is current without current sources; it never raises. |
| `PublishedStores.SilentThenReadyNow` | backend/knowledge/publication.py:163-235 | What the coverage gates established at publication still holds after definitions and questions were added and candidate rules kept. |
| `PublishedStores.PublishedCasesAreAnswered` | backend/planning/operation.py:60-271 | Over a store whose publications passed the coverage gates of their time, every prepared case is answered and versions never conflict: a configuration result means exactly that a current basis or dependency has lost its sources. |
| `RateLimit.Limiter.Evaluate` | backend/api/rate_limit.py:68-99 | The pruning loop and counter compute the specified step; the decision compares the new count with the limit. |
| `RateLimit.ExactExactlyIfNotOvertaken` | backend/api/rate_limit.py:87-97 | For every run of calls in any order, a bucket equals the number of calls made for it exactly when no call two windows newer came after one of them. |
| `RateLimit.BucketsCountSince` | backend/api/rate_limit.py:87-97 | For every run, a bucket holds the calls made since the key was last overtaken, and is stored exactly when there are any. |
| `RateLimit.CappedExactlyIf` | backend/api/rate_limit.py:96-99 | For every run, key and limit: the calls that pass are the smaller of the limit and the calls made, exactly when the key was not called again after being overtaken or was not called more often than the limit. |
| `RateLimit.RunsAreFaithful` | backend/api/rate_limit.py:87-97 | For every run whose calls lag at most one window, only the newest two windows are stored and each bucket equals the calls made for it. |
| `RateLimit.PassedIsCapped` | backend/api/rate_limit.py:96-99 | In every run, exactly the first `limit` calls for a key pass unless it is called again after being overtaken, whatever happens to other keys. |
| `RateLimit.OrderedCallsAreCapped` | backend/api/rate_limit.py:96-99 | When calls lag at most one window no key is resumed, so the limit holds for each. |
| `RateLimit.WaitingReachesNextWindow` | backend/api/rate_limit.py:82-84 | Waiting the advertised time lands in the next window, neither earlier nor later. |
| `RateLimit.LateCallSlipsThrough` | backend/api/rate_limit.py:89-97 | The smallest run that escapes: with a limit of one, two calls for one key pass, the second two windows late. |
| `CalendarLaws.BeforeMeans` | backend/planning/case_preparation.py:78-82 | Dates compare like year*372 + month*31 + day. |
| `CalendarLaws.IsoTextMeans` | backend/planning/rules.py:46-54 | A date's text is four digits spelling the year, two the month and two the day, between dashes. |
| `CalendarLaws.TextLeMeans` | backend/planning/facts.py:185-207 | A text is not after another exactly when it begins it or has the lower character where they first differ: the order diagnostics and ids are sorted by. |
| `CalendarLaws.InsideMeans` | backend/planning/versions.py:71-75 | An interval contains both its ends, and every day where an end is open. |
| `CalendarLaws.LastDays` | backend/planning/case_preparation.py:85-92 | The last day of every month of every year. |
| `RuleLaws.RefusedAs` | backend/planning/facts.py:185-207 | One submitted value is refused as undefined, else as derived, else as invalid, each with its exact condition, and accepted otherwise. |
| `RuleLaws.AcceptedAs` | backend/planning/rules.py:97-238 | The decoder accepts a document as p exactly when p is admissible under the registry, has at most 128 nodes, and the document writes it: operator names, fields, literals and operands spelled out one by one. |
| `RuleLaws.NodeReportedExactlyIf` | backend/planning/rules.py:117-224 | Every diagnostic of one node, its code and its path, by its exact condition; nothing else is reported. |
| `RuleLaws.ReadExactlyIf` | backend/planning/rules.py:117-178 | The nodes read are exactly those that stand in the document, under the path they stand at. |
| `RuleLaws.NodesInOrder` | backend/planning/rules.py:169-178 | Nodes are read once each, parents before their children and children in their order. |
| `RuleLaws.RuleReportedExactlyIf` | backend/planning/rules.py:97-238 | A rule is reported, each diagnostic once, for exactly what its first 128 nodes are reported for, and for being too large exactly when it has more; it is accepted exactly when nothing is reported. |
| `RuleLaws.DiagnosedExactlyIf` | backend/planning/rules.py:97-115 | Diagnostics of earlier nodes come first: the report on the first k nodes begins the report on all. |
| `RuleLaws.NamesAre` | backend/planning/rules.py:16-23 | The ten operator names. |
| `EvaluatorLaws.AllMeans` | backend/planning/evaluator.py:61-94 | `all` is TRUE exactly when every child is, FALSE exactly when some child is, and so UNKNOWN otherwise. |
| `EvaluatorLaws.AnyMeans` | backend/planning/evaluator.py:61-94 | `any` is the dual. |
| `EvaluatorLaws.NotMeans` | backend/planning/evaluator.py:97-115 | `not` is the negation, and leaves UNKNOWN alone. |
| `EvaluatorLaws.ExistsMeans` | backend/planning/evaluator.py:117-130 | `exists` is whether the key was submitted, whatever its value. |
| `EvaluatorLaws.ComparisonMeans` | backend/planning/evaluator.py:117-168 | A registry-typed comparison with a value present: `lt`, `lte`, `gt`, `gte` compare integers as numbers and dates by the calendar, `eq` is equality, `in` is membership; TRUE or FALSE, never UNKNOWN. |
| `EvaluatorLaws.EqualityMeans` | backend/planning/evaluator.py:144-168 | On values of any kinds `eq` and `in` compare as Python does: True is 1, False is 0, and other kinds never equal. |
| `EvaluatorLaws.MissingMeans` | backend/planning/evaluator.py:61-142 | What an undecided predicate misses: a leaf its own Fact, a composition what its undecided children miss; a decided one nothing. |
| `EvaluatorLaws.BlameOfComposition` | backend/planning/case_preparation.py:106-118 | A composition blames exactly what those children blame that have its value. |
| `EvaluatorLaws.BlameOfOthers` | backend/planning/case_preparation.py:106-118 | A leaf blames its own key if it was submitted, and `not` blames what its child does. |
| `EvaluatorLaws.MentionedExactlyIf` | backend/planning/case_preparation.py:95-103 | The keys collected from a rule are exactly those that stand somewhere in it. |
| `DerivedFacts.PreparedExactlyIf` | backend/planning/case_preparation.py:121-252 | Which keys a prepared case has values for: the submitted ones, and a registered pinned key exactly when all it derives from was submitted; and which sources each other pinned key misses. |
| `DerivedFacts.AgeMeans` | backend/planning/case_preparation.py:145-171 | The prepared age is at least n exactly when (birth year + n, month, day) is not after the evaluation date, for every n. |
| `DerivedFacts.OnlySonMeans` | backend/planning/case_preparation.py:215-221 | only_son_candidate is true exactly when the father is alive and the count of other sons is 0. |
| `DerivedFacts.CardExpiredMeans` | backend/planning/case_preparation.py:172-190 | card_expired_before_evaluation_date is true exactly when the expiry is before the evaluation date. |
| `DerivedFacts.DeadlineMeans` | backend/planning/case_preparation.py:190-214 | The deadline lies exactly three months after the expiry with the day clamped to the month, and renewal_deadline_passed is true exactly when that date is before the evaluation date. |
| `DerivedFacts.PreparationEndsAs` | backend/planning/case_preparation.py:121-252 | Every way preparation ends, by exact condition: incompatible definitions, a refused submission, a birth date after the evaluation date, an unrepresentable deadline, ill-declared contradictions, the keys contradicted, or success. |
| `DerivedFacts.WellDeclaredExactlyIf` | backend/planning/case_preparation.py:223-239 | A contradiction is well declared exactly when it names two or more different source Facts, those its condition mentions and no others. |
| `DerivedFacts.CompatibleExactlyIf` | backend/planning/case_preparation.py:65-75 | A derived definition is compatible exactly when it is one of the five pinned ones, spelled out. |
| `DerivedFacts.DeadlineIsUnique` | backend/planning/case_preparation.py:85-92 | There is only one date three months later with the day clamped. |
| `TrustLaws.AssessedAs` | backend/planning/trust.py:36-96 | All three dispositions and the freshness of any material, by exact conditions on its dates and stored state. |
| `TrustLaws.CountsExactlyIf` | backend/planning/provenance.py:23-60 | A link counts exactly when it is current, known by the day, in force, not overdue, and rests on one or more sources each of which is. |
| `TrustLaws.CitableExactlyIf` | backend/planning/provenance.py:37-70 | Evidence may be cited exactly when some link sustains the claim - official sources only where asked - and no counting link contradicts it. |
| `TrustLaws.SupportingSourcesMean` | backend/planning/provenance.py:37-70 | What is cited lists in id order one source for each id the sustaining links cite, the last one cited. |
| `TrustLaws.ClaimSourcesMean` | backend/planning/provenance.py:73-86 | For a claim that cannot be asserted, the same over all supporting links whatever their trust. |
| `RowLaws.ItemAsksExactlyIf` | backend/planning/checklists.py:40-121 | A checklist row asks for a Fact exactly when it is an official requirement for this case and day, may be asserted, and its undecided rule waits for that Fact. |
| `RowLaws.ItemUndecidedExactlyIf` | backend/planning/checklists.py:40-121 | It stays undecided exactly when its rule is, and it may not be asserted or no Fact would help. |
| `RowLaws.ItemGapExactlyIf` | backend/planning/checklists.py:86-105 | It leaves a trust gap exactly when it is official, not ruled out, not assertable, and not merely a verified thing of the past. |
| `RowLaws.ItemNeedsBasisExactlyIf` | backend/planning/checklists.py:48-62 | It lacks its basis exactly when it is for one the version does not have, or none was weighed. |
| `RowLaws.ItemShownAs` | backend/planning/checklists.py:106-121 | A shown item is the authored one field by field, current, with the sources that may be cited. |
| `RowLaws.StepAsksExactlyIf` | backend/planning/steps.py:40-106 | The same for a step's questions. |
| `RowLaws.StepUndecidedExactlyIf` | backend/planning/steps.py:40-106 | The same for a step that stays undecided. |
| `RowLaws.StepGapExactlyIf` | backend/planning/steps.py:40-106 | A step leaves a gap exactly when it is for this case and day, not ruled out, and may not be asserted. |
| `RowLaws.StepShownAs` | backend/planning/steps.py:90-106 | A shown step is the authored one. |
| `RowLaws.FeeListedExactlyIf` | backend/planning/fees.py:40-100 | A fee is shown, with or without figures, exactly when it is for this case and day, applies, and is not verified but out of date. |
| `RowLaws.FeeAsksExactlyIf` | backend/planning/fees.py:40-100 | It asks exactly when it is trustworthy and its undecided rule waits for the Fact. |
| `RowLaws.FeeNeedsBasisExactlyIf` | backend/planning/fees.py:40-75 | It lacks its basis exactly when the version does not have it, or when it is trustworthy and no basis was weighed. |
| `RowLaws.FeeShownAs` | backend/planning/fees.py:100-149 | What a shown fee says: texts as authored, its figures exactly when they are authored and assertable, otherwise marked unknown with the state downgraded; the sources cited and the freshness in each case. |
| `RowLaws.WarningShownAs` | backend/planning/warnings.py:30-83 | A shown warning is the authored one, with its citable sources, or none without evidence. |
| `RowLaws.RegenerationListedExactlyIf` | backend/planning/warnings.py:30-48 | The regeneration notice is listed exactly when it is an important product warning without evidence. |
| `RowLaws.BasisInvalidExactlyIf` | backend/planning/eligibility_bases.py:60-141 | A basis breaks the configuration exactly when, in force, no rule decides it, or it qualifies and is trustworthy without evidence. |
| `RowLaws.BasisAsksExactlyIf` | backend/planning/eligibility_bases.py:60-141 | It asks for a Fact exactly when it is not suspect and its first undecided stage waits for it. |
| `RowLaws.BasisInconclusiveExactlyIf` | backend/planning/eligibility_bases.py:60-141 | It is inconclusive exactly when a suspect basis is in question, or a qualifying one is not trustworthy. |
| `RowLaws.BasisTrustedExactlyIf` | backend/planning/eligibility_bases.py:60-141 | It unlocks guidance, its own and no other, exactly when it qualifies and may be asserted. |
| `RowLaws.BasisShownAs` | backend/planning/eligibility_bases.py:105-141 | A qualifying basis is listed unless it is trustworthy without evidence; what it shows, trusted or not. |
| `RowLaws.DependencyInvalidExactlyIf` | backend/planning/dependencies.py:55-165 | A prerequisite breaks the configuration exactly when, in force, it does not block or nothing satisfies it, or it is decided and trustworthy without evidence. |
| `RowLaws.DependencyAsksExactlyIf` | backend/planning/dependencies.py:55-165 | It asks exactly when it is complete and trustworthy and its first undecided rule waits for the Fact. |
| `RowLaws.DependencyShownAs` | backend/planning/dependencies.py:80-160 | A shown prerequisite names its target, and the target's version in force exactly where it is trustworthy and one is. |
| `RowLaws.StepNeedsBasisExactlyIf` | backend/planning/steps.py:40-70 | A step lacks its basis exactly when it is in force and for one the version does not have, or none was weighed. |
| `RowLaws.FeeUndecidedExactlyIf` | backend/planning/fees.py:40-100 | A fee stays undecided exactly when it is trustworthy, its rule is undecided, and no Fact would help. |
| `RowLaws.FeeShowsItself` | backend/planning/fees.py:100-149 | What a fee row shows is the projection of that fee. |
| `Listings.ChecklistIsListed` | backend/planning/checklists.py:26-121 | The items are what the rows show in turn, by display order and id; every set and flag of the selection is what some row put there. |
| `Listings.StepsAreListed` | backend/planning/steps.py:26-106 | The same for steps, by phase, slot and id. |
| `Listings.FeesAreListed` | backend/planning/fees.py:26-149 | The same for fees. |
| `Listings.WarningsAreListed` | backend/planning/warnings.py:15-83 | The warnings of a plan are what the rows show, in turn. |
| `Listings.BasesAreListed` | backend/planning/eligibility_bases.py:45-141 | The same for bases. |
| `Listings.DependenciesAreListed` | backend/planning/dependencies.py:43-165 | The same for prerequisites. |
| `RoutingLaws.LeadsExactlyIf` | backend/planning/routing.py:56-131 | An association leads to its place exactly when it is in force, assertable and for this case, and the place's description is in force, assertable and not unavailable. |
| `RoutingLaws.IgnoredExactlyIf` | backend/planning/routing.py:56-87 | It is passed over exactly when it is not in force, or assertable and known not to be for this case. |
| `RoutingLaws.GapAs` | backend/planning/routing.py:56-117 | Otherwise whose evidence remains to be verified: its own, its description's, or both. |
| `RoutingLaws.DestinationShows` | backend/planning/routing.py:118-131 | What a destination shows, and that its sources are the association's and, under other ids, the description's. |
| `RoutingLaws.ListedExactlyIf` | backend/planning/routing.py:56-147 | The routing lists exactly the places some association leads to. |
| `RoutingLaws.DestinationsInTurn` | backend/planning/routing.py:133-139 | By place, then description, then association. |
| `RoutingLaws.StatusAs` | backend/planning/routing.py:140-147 | It is unresolved exactly without destinations, and partial exactly when some association leaves a gap. |
| `RoutingLaws.OfferedExactlyIf` | backend/planning/routing.py:30-54 | A source is offered for verification exactly when the evidence of some gap cites it by a supporting link, both begun and known by the day. |
| `RoutingLaws.UndescribedGapAs` | backend/planning/routing.py:89-94 | Without a stored description an association leads nowhere. |
| `RoutingLaws.UnplacedGapAs` | backend/planning/routing.py:89-94 | Nor without a stored place. |
| `VersionLaws.DefectExactlyIf` | backend/planning/versions.py:89-153 | Resolution fails exactly on a store with a malformed version, or with two published versions sharing a day; it reports the former's codes exactly, else the overlap. |
| `VersionLaws.NamedExactlyIf` | backend/planning/versions.py:116-153 | A defect names exactly the malformed versions, or else those that share a day with another. |
| `VersionLaws.ResolvedExactlyIf` | backend/planning/versions.py:89-180 | v is resolved exactly when it is the published version in force on the day, in an unflawed store. |
| `VersionLaws.UnavailableExactlyIf` | backend/planning/versions.py:108-180 | Otherwise no version is, and each reason - unknown, none published, not yet effective, none applicable - is given by its exact condition. |
| `VersionLaws.HistoricalExactlyIf` | backend/planning/versions.py:155-168 | A version asked for by id is resolved, and marked historical, by exact conditions. |
| `VersionLaws.UpcomingMeans` | backend/planning/versions.py:54-68 | Every result reports exactly the published versions that start later, the earliest first, then by id. |
| `ChoiceLaws.ChoiceEndsAs` | backend/planning/selection.py:76-132 | Choosing ends as several matches, as no match, as the only match with all others ruled out, or with a question, each by exact conditions on the candidates' votes. |
| `ChoiceLaws.SoughtExactlyIf` | backend/planning/questions.py:82-142 | Which source Facts are sought for the missing ones. |
| `ChoiceLaws.UnsoughtExactlyIf` | backend/planning/questions.py:82-142 | Which missing Facts have no sound source, under each profile. |
| `ChoiceLaws.AskForShows` | backend/planning/questions.py:57-142 | Asked for missing Facts, a later phase shows the question of lowest priority number, then lowest id, among those that resolve a source Fact sought; a configuration result exactly when some Fact has no sound source or no question. |
| `ChoiceLaws.QuestionShows` | backend/planning/questions.py:145-172 | What the caller sees of a question: its text and, for each key, kind, options and minimum; a configuration result exactly when a key is undefined or derived. |
| `PlanOutcomes.PlannedExactlyIf` | backend/planning/operation.py:52-271 | There is a plan exactly when the service is active and accepts the case, exactly one candidate matches and every other is ruled out, its published version in force applies, and no selection is broken, asks, lacks a basis or stays undecided. |
| `PlanOutcomes.ReasonExactlyIf` | backend/planning/operation.py:52-231 | Each reason for having no plan is given exactly when it holds of the case; procedure_version_not_applicable exactly when the version found evaluates FALSE. |
| `PlanOutcomes.ApplyingEndsAs` | backend/planning/operation.py:106-125 | A version found is refused when its rule is FALSE; when it is UNKNOWN the missing Facts are asked for, or there is none to ask for. |
| `PlanOutcomes.PreparingEndsAs` | backend/planning/operation.py:63-87 | A refused submission and a failed preparation are reported as such. |
| `PlanOutcomes.PubliclyMeans` | backend/planning/operation.py:63-86 | With one entry for each diagnostic, of its kind and at its place. |
| `PlanOutcomes.ChoosingEndsAs` | backend/planning/operation.py:89-96 | Several matches, no match, a question, or a configuration result, by the candidates' votes. |
| `PlanOutcomes.ResolvingEndsAs` | backend/planning/operation.py:98-104 | A flawed store, or no version in force, with the reason. |
| `PlanOutcomes.BasesEndAs` | backend/planning/operation.py:127-146 | A broken basis, then the Facts bases ask for, then no applicable basis. |
| `PlanOutcomes.DependenciesEndAs` | backend/planning/operation.py:148-166 | A broken prerequisite, then the Facts prerequisites ask for. |
| `PlanOutcomes.ItemsEndAs` | backend/planning/operation.py:168-189 | A lacking basis, then the Facts items ask for, then undecided items. |
| `PlanOutcomes.StepsEndAs` | backend/planning/operation.py:190-210 | The same for steps. |
| `PlanOutcomes.FeesEndAs` | backend/planning/operation.py:211-231 | The same for fees. |
| `PlanOutcomes.SettledIsPlanned` | backend/planning/operation.py:232-271 | A plan shows exactly what the selections over its version yield: every field, each basis with the guidance that hangs on it, and which sections are inconclusive. |
| `ProjectedTrust.ProjectedFollows` | backend/knowledge/evidence_trust_projection.py:60-171 | Claim by claim: the projected state is the most severe open state, else the last event's; the verification day is the later of the stored one and the latest vouched for since the last review; re-verify date and every link's state, days and dates are the last review's, and are unchanged without one; a claim without events is unchanged. |
| `ProjectedTrust.ProjectionFailsExactlyIf` | backend/knowledge/evidence_trust_projection.py:115-135 | The projection fails exactly when some owner's only open discrepancies are in states without a rank. |
| `HistoryLaws.SavedExactlyIf` | backend/knowledge/evidence_workflow.py:142-175 | Saving goes through exactly for an open discrepancy whose owner, creation and, while open, outcome are kept and which is well formed afterwards. |
| `HistoryLaws.HistoryIs` | backend/knowledge/evidence_workflow_temporal.py:157-207 | The history of a day holds each transition captured by then, and each review that left the meaning unchanged, exactly once: by time, transitions before reviews of the same moment, earlier rows first. |
| `HistoryLaws.SaveRefusedAs` | backend/knowledge/evidence_workflow.py:142-175 | A refused save names the first broken rule. |
| `ScopeLaws.ReachedExactlyIf` | backend/knowledge/planning_scope.py:44-104 | The Procedures in scope are exactly those a chain of blocking dependencies of public versions leads to from one the service offers. |
| `ScopeLaws.PartHolds` | backend/knowledge/planning_scope.py:65-135 | The part loaded holds exactly the service, the versions of Procedures in scope, the material their associations mention and the places of that material. |
| `ScopeLaws.VersionsKept` | backend/knowledge/planning_scope.py:88-104 | In the order they are stored in. |
| `LifecycleLaws.PublishFailsExactlyIf` | backend/knowledge/publication.py:544-557 | Publishing reports exactly the gates that fail: not a draft, no saved actor, another contract, an interval that ends before it starts, a published version in the way, Procedures that would wait for themselves, other gates. |
| `LifecycleLaws.PublishChanges` | backend/knowledge/publication.py:631-797 | It happens exactly when no gate fails, and then changes the state to published, appends one audit event, and touches nothing else. |
| `LifecycleLaws.WithdrawChanges` | backend/knowledge/publication.py:800-836 | Withdrawing happens exactly to a published version by a saved actor; the failure otherwise, and the whole new state. |
| `LifecycleLaws.DraftsChange` | backend/knowledge/models.py:201-228 | Creating, saving and deleting apply to drafts only: the failure otherwise, and the whole new state. |
| `LifecycleLaws.RefusedChangesNothing` | backend/knowledge/publication.py:631-836 | Whatever is refused changes nothing. |
| `LoaderPolicy.AdequateExactlyIf` | backend/knowledge/snapshot_policy.py:200-212 | Evidence is adequate exactly when some complete current link supports and no current link contradicts. |
| `LoaderPolicy.RoutingAdequateExactlyIf` | backend/knowledge/snapshot_policy.py:571-594 | Routing evidence is adequate exactly when no link lacks a text, cites an undescribed field report or contradicts, and one supports now. |
| `LoaderPolicy.FeeFiguresExactlyIf` | backend/knowledge/snapshot_policy.py:215-232 | The figures fit the value state exactly when the shape spelled out for it holds, for the gate and for the loader. |
| `LoaderPolicy.ChecklistLoadsExactlyIf` | backend/knowledge/snapshot_policy.py:313-321 | The loader is silent about a checklist row exactly when its rule reads, a current one has evidence, and every link has sources; each code it gives is true of the row. |
| `LoaderPolicy.StepLoadsExactlyIf` | backend/knowledge/snapshot_policy.py:323-333 | The same for a step: its rule reads, its basis is of its version, and current it is adequately supported. |
| `LoaderPolicy.FeeLoadsExactlyIf` | backend/knowledge/snapshot_policy.py:335-357 | The loader is silent about a fee exactly when its rule reads, its basis is of its version, currency and type are given, the figures fit, and evidence is there as the value state demands. |
| `LoaderPolicy.FeeRefusedAs` | backend/knowledge/snapshot_policy.py:335-357 | The code a refused fee is given is true of it. |
| `LoaderPolicy.WarningLoadsExactlyIf` | backend/knowledge/snapshot_policy.py:359-368 | The same for a warning. |
| `LoaderPolicy.BasisLoadsExactlyIf` | backend/knowledge/snapshot_policy.py:490-524 | The same for a basis. |
| `LoaderPolicy.DependencyLoadsExactlyIf` | backend/knowledge/snapshot_policy.py:527-568 | The same for a dependency. |
| `LoaderPolicy.AssociationLoadsExactlyIf` | backend/knowledge/snapshot_policy.py:605-626 | The same for an association. |
| `LoaderPolicy.MaterialLoadsExactlyIf` | backend/knowledge/snapshot_policy.py:627-646 | The same for shared material. |
| `LoaderPolicy.EvidenceReports` | backend/knowledge/publication.py:290-345 | What a gate reports of evidence: which faults of which links, exactly. |
| `LoaderPolicy.ChecklistReports` | backend/knowledge/publication.py:268-358 | Every failure the checklist gate reports of a row, exactly. |
| `LoaderPolicy.StepReports` | backend/knowledge/publication.py:361-440 | The same for a step. |
| `LoaderPolicy.WarningReports` | backend/knowledge/publication.py:361-489 | The same for a warning. |
| `LoaderPolicy.FeeReports` | backend/knowledge/fees.py:248-398 | The same for a fee. |
| `LoaderPolicy.BasisReports` | backend/knowledge/eligibility_bases.py:70-232 | The same for a basis. |
| `LoaderPolicy.DependencyReports` | backend/knowledge/procedure_dependencies.py:172-340 | The same for a dependency. |
| `LoaderPolicy.AssociationReports` | backend/knowledge/service_point_routing.py:310-400 | The same for an association. |
| `LoaderPolicy.MaterialReports` | backend/knowledge/service_point_routing.py:400-480 | The same for shared material. |
| `LoaderPolicy.GuidanceReports` | backend/knowledge/publication.py:361-489 | The guidance gate reports what some row is reported for, and the notice exactly when there is guidance and not exactly one regeneration warning. |
| `LoaderPolicy.FeesReport` | backend/knowledge/fees.py:248-398 | The same for the fee gate. |
| `LoaderPolicy.ChecklistFieldReports` | backend/knowledge/publication.py:271-289 | What a checklist row is reported for apart from evidence, exactly. |
| `LoaderPolicy.ChecklistSupportReports` | backend/knowledge/publication.py:340-358 | What it is reported for lacking, exactly. |
| `LoaderPolicy.StepFieldReports` | backend/knowledge/publication.py:364-440 | What a step is reported for apart from evidence, exactly. |
| `LoaderPolicy.WarningFieldReports` | backend/knowledge/publication.py:364-489 | The same for a warning. |
| `LoaderPolicy.FeeFieldReports` | backend/knowledge/fees.py:253-398 | The same for a fee. |
| `LoaderPolicy.BasisFieldReports` | backend/knowledge/eligibility_bases.py:75-232 | The same for a basis. |
| `LoaderPolicy.DependencyOwnerReports` | backend/knowledge/procedure_dependencies.py:177-356 | A dependency is reported exactly when it does not block, belongs to another version, or leads back to its own Procedure. |
| `LoaderPolicy.DependencyFieldReports` | backend/knowledge/procedure_dependencies.py:177-356 | What it is reported for apart from owner and evidence, exactly. |
| `LoaderPolicy.AssociationFieldReports` | backend/knowledge/service_point_routing.py:313-400 | The same for an association. |
| `LoaderPolicy.MaterialFieldReports` | backend/knowledge/service_point_routing.py:313-491 | The same for shared material. |
| `LoaderPolicy.RoutingReports` | backend/knowledge/service_point_routing.py:313-491 | An association is reported with the material it leads to, or for leading to none. |
| `CoverageLaws.ApplicabilityReported` | backend/knowledge/publication.py:162-235 | The applicability gate reports exactly: consulted rules that do not decode, mentioned keys without sound sources, source Facts behind the others that no sound question resolves, and keys of questions that are not source Facts; a version rule that does not decode hides the rest. |
| `CoverageLaws.BasisReported` | backend/knowledge/eligibility_bases.py:75-232 | The same for the basis gate, with bases no rule decides and items of a basis the version does not have. |
| `CoverageLaws.DependencyReported` | backend/knowledge/procedure_dependencies.py:177-356 | The same for the dependency gate, with dependencies that do not block or that nothing satisfies. |
| `CoverageLaws.SelectionReported` | backend/knowledge/selection_questions.py:40-87 | The selection gate reports exactly the candidate's rules that do not decode, and the source Facts behind the others that no question resolves. |
| `CoverageLaws.UnownedReported` | backend/knowledge/publication.py:361-440 | Steps and fees of a basis the version does not have are reported, and only they. |
| `CoverageLaws.SoundlyExactlyIf` | backend/knowledge/publication.py:163-235 | The keys the applicability gate takes as asked are exactly those of questions that resolve source Facts only. |
| `CoverageLaws.NeededExactlyIf` | backend/knowledge/selection_questions.py:40-87 | The keys behind a candidate are those its decoding rules mention. |
| `RateLimit.WaitingLessStays` | backend/api/rate_limit.py:82-84 | Waiting a second less than advertised never reaches the next window. |

## Left out

- Django models, Admin, forms, migrations, SQL and row locking: query results are sequences or maps of rows; validations of blank
  text on save, saved-actor lookups and timestamps metadata such as published_at are not part of this model.
- Concurrency between two publishers: lifecycle steps run one at a time; the database's exclusion constraint, which backs the
  overlap gate up, is not modelled.
- Lifecycle.RunGates: the gates other than state, actor, rules contract, interval, overlap and cycle enter as one boolean, because
  their row rules are the subject of PublicationGates and CoverageGates, and PublishedStores puts both together; audit events carry no actor, time or review mode.
- PublicationGates.GatesImplyLoader: candidate, contradiction and question rows of the core loader belong to a service, not to a
  version, so no publication gate of a version speaks about them; the decoded-rule dictionaries the loader also returns are left out.
- PublicationGates.ValidateGuidance: failures are sets of (code, owner, link), because the policy sorts them before reporting;
  repeated identical diagnostics collapse.
- CoverageGates.CheckApplicability: a rule stands for its stored form, the serialization it decodes from, and the three gates on
  bases, dependencies and owners are modelled in their coverage and ownership parts; their evidence parts are in PublicationGates.
- PublishedStores.PublishedCasesAreAnswered: a service whose questions were withdrawn, or whose candidate rules were edited, after
  the last publication is outside the theorem, because no gate looks at it again; that questions name source Facts only, which the
  editing layer enforces, is a premise.
- EvidenceWorkflow.Workflow.Record: what the database is asked (complete evidence set, only drafts, fit successor) comes in as
  arguments; rationale texts and actors are left out.
- EvidenceWorkflow.ReadScopedHistory: the scope is a set of owners, where the source keeps the set of all their evidence links; an
  anchor link belongs to exactly one owner.
- EvidenceReplay.GivePrecedence: event types other than opened and resolved, which a database constraint excludes, are left out.
- Rule objects with keys that are not text: raw documents come from JSON, whose keys always are, so that branch is unreachable.
- Evaluation traces: the actual and expected values kept for display are left out; the marks, results and missing sets are kept.
- Evaluator.TypedNeverRaises: evaluation is a total function returning FALSE where Python raises, and a separate predicate marks
  exactly those inputs.
- CasePreparation.PrepareCase: the check that the evaluation date is a date is left out, since a date is all the model can pass.
- Questions.ExpandMissing: the text prefix of its diagnostics and their order are left out; the planner only looks at whether there are any.
- Selection evaluations kept for display and the localized classification label of checklist items.
- RateLimit.Limiter.Evaluate: the client identifier (an HMAC) and the scope of a path are given; rounding of floating-point time and
  settings that change while a process runs are not modelled.
- Request schemas, routes, privacy filters, the frontend, `backend/core` and the tools: I/O plumbing and field copying.
