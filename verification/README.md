# Models of the Trade Growth Engine

The Trade Growth Engine turns imported commercial records into leak cases and reviewed revenue actions. This
project models the parts of it where correctness is hard to see from one function, and proves what they
promise over all inputs and all runs.

* **Revenue actions** (`RevenueAction*.dfy`, `Deal*.dfy`). An action is recommended, prepared, approved and
  executed; an execution writes several collections one after the other without a transaction. The service is a
  class whose methods perform those writes, with a process stop or a thrown write between any two of them. Proved
  over all runs: effects happen at most once, at most one action per opportunity is live, terminal records are
  frozen, every log entry rests on evidence that stands and on a call entitled to it, and an interrupted execution
  is completed by a retry with the effects already there. `RevenueActionLimits.dfy` holds the exact limits of that
  promise.
* **Leak cases** (`LeakCase*.dfy`). An event-sourced store: each record must equal the replay of its log, and
  the whole collection is checked before every read and every write. Proved over runs of arbitrary operations:
  logs only grow, and a series whose detection times differ is a linear chain. The check before a write never
  refuses a legitimate operation, and from any accepted collection, and so in every reachable store, it is exact
  when it refuses an operation that passed its guards.
* **Detection, scan and handoff** (`Detector*.dfy`, `Portfolio*.dfy`, `Handoff*.dfy`). The detector ignores the
  order of its records and reports a leak in an exact window of time; a second scan in that window replays
  every case, in whatever store; a handoff that stopped half way is resumed with the same action.
* **Exact decimals** (`NumericEvidence.dfy`, `Decimal*.dfy`, `Digits.dfy`). Literals are texts with unbounded
  digits and exponents; every operation on them is compared with the rational value they denote.
* **CSV import** (`Csv*.dfy`, `Import*.dfy`). The scanner accepts exactly the printed documents of section 2 of
  RFC 4180, with its three record ends, within its limits, and refuses one beyond them for its first offence; the
  commit plan conserves rows and identities.
* **Readiness** (`Readiness*.dfy`). Probes, answers, timeouts, pool errors and shutdown in every interleaving; what
  is published is told from the events alone.
* **Orders and sums** (`OperatingQueue.dfy`, `QueueSummary.dfy`, `TopActions.dfy`, `MonetarySummary.dfy`,
  `CurrencyLedger.dfy`) and the **prospect merge** (`ProspectMerge.dfy`).

Throughout, a fingerprint is the value that is hashed, so that equal fingerprints are equal values; times are
integer milliseconds; `localeCompare` is the order of code points; identifiers that the program draws at random
are arguments, required to be fresh only where a result depends on it. A service method is proved equal to a step
function on the whole store, and the laws are lemmas about those steps and about runs of them. What an operation
decides is stated a second time in terms of the stored records, in the lemmas named `ExactlyWhen`, without the
functions that decide it. Text, list and sorting helpers are in `Text.dfy`, `Lists.dfy` and `Sorting.dfy`.

Five promises of the code are false as they stand, and stated as what is true instead:

* A throw after the EXECUTED record, by the refresh that builds the answer inside the same `try`, overwrites
  EXECUTED with FAILED (`RevenueActionLimits.ExecutedIsTakenBack`). A retry that finds the effects complete
  restores it (`RevenueActionDelivery.TakenBackIsRestored`).
* An interrupted CREATE_TASK execution that reused a task with another title is not recovered: the inspector
  compares the proposed title while the effect wrote the task's own one, and the retry cancels the action as
  stale. Recovery succeeds if and only if the title is safe (`RevenueActionLimits.RecoveryNeedsSafeTitle`).
* With equal detection times in a series, and with subjects above 512 bytes or times before the detection, the
  case check refuses operations that passed their own guards (`LeakCaseRefusals.EqualTimesAreRefused`,
  `LeakCaseAcceptance`).
* An accepted collection does not grant later writes: it may hold a dismissed case that names an open one, and
  then the open one cannot be superseded (`LeakCaseRefusals.ForkIsRefused`). No run reaches such a collection
  (`LeakCaseFreeRuns.FreeRunsAreTidy`).
* A reported leak whose next action is recorded as n/a, na or not known cannot be handed off: the detector reads
  these texts as unknown and the advice does not (`HandoffAdvice.HandedOffExactlyWhen`).

## Model
| member | source | states |
|---|---|---|
| DecimalValue.LiteralsAreTheGrammar | src/imports/numericEvidence.js:1-9 | a text is a decimal literal if and only if, trimmed, it is a spelling of the sign/digits/point/exponent grammar, for unbounded digits and exponents |
| DecimalValue.SpellingIsUnambiguous | src/imports/numericEvidence.js:1-9 | two grammar trees that spell the same text have the same rational value and the same exponent, so every literal denotes one rational |
| DecimalValue.NormalizeKeepsValue | src/imports/numericEvidence.js:130-158 | the normal form (digits, power, sign, zero flag) denotes the literal's value, its zero flag is value = 0, its sign is value < 0, and its exponent is the one written in the literal |
| DecimalExact.NormalFormsAreUnique | src/imports/numericEvidence.js:54-64 | two digit strings without zeros at the ends denote equal magnitudes if and only if digits and powers are equal |
| DecimalExact.EquivalenceIsEquality | src/imports/numericEvidence.js:54-64 | areDecimalLiteralsEquivalent holds exactly when both are literals of equal rational value |
| DecimalExact.UnitsAreExact | src/imports/numericEvidence.js:83-102 | canonicalDecimalUnits is u exactly when the written exponent is in PostgreSQL's range, value * 10^6 = u and |u| < 10^20; null in every other case |
| DecimalExact.RepresentableIsExact | src/imports/numericEvidence.js:40-52 | representable holds exactly when the written exponent is in range and value * 10^6 is an integer below 10^20 in magnitude |
| DecimalExact.ComparisonIsTheOrder | src/imports/numericEvidence.js:104-115 | comparison throws exactly when one side is not representable, and otherwise is the order of the rational values |
| DecimalExact.ZeroAndSignAreExact | src/imports/numericEvidence.js:11-21 | exact zero is value = 0 and negative is value < 0, on every text |
| DecimalExact.GreaterThanOneIsExact | src/imports/numericEvidence.js:23-38 | greater-than-one is value > 1, on every text, without computing a power |
| DecimalPrinting.CanonicalIsPrintedUnits | src/imports/numericEvidence.js:66-128 | canonicalizeDecimalLiteral and canonicalDecimalUnits are null on the same inputs, and otherwise printing the units gives exactly the canonical literal |
| DecimalPrinting.PrintedUnitsReadBack | src/imports/numericEvidence.js:83-128 | for every integer u with |u| < 10^20, reading back decimalFromCanonicalUnits(u) gives u |
| DecimalPrinting.PrintedValueIsExact | src/imports/numericEvidence.js:117-128 | printed units of any size are a literal of value u / 10^6 |
| DecimalPrinting.CanonicalIsIdempotent | src/imports/numericEvidence.js:66-102 | canonicalising a canonical literal changes nothing and keeps the units |
| DecimalPrinting.CanonicalKeepsValue | src/imports/numericEvidence.js:66-81 | the canonical literal denotes the value of the literal it came from |
| DecimalPrinting.CanonicalZero | src/imports/numericEvidence.js:66-81 | the canonical text is "0" exactly for the value 0 |
| HandoffRetry.AdviceDoesNotAge | src/intelligence/dealIntelligence.js:607-621 | the advice to define a next action, and the basis fingerprinted on it, depend neither on the clock nor on anything but the latest of the activities |
| Deals.LatestActivityIsNewest | src/intelligence/dealIntelligence.js:113-135 | the activity that the next best action and the fingerprint look at belongs to the opportunity and none of the opportunity is newer |
| DealAdvice.NamesAreFirst | src/intelligence/dealIntelligence.js:162-186 | business, service and location are the first text that says something, of the opportunity and then of its prospect |
| DealAdvice.DaysAreNearest | src/intelligence/dealIntelligence.js:647-675 | the days of an age are rounded to the nearest, halves up |
| DealAdvice.AdvisedExactlyWhen | src/intelligence/dealIntelligence.js:600-720 | the advice told from the records: define a next action, find a contact, follow up when no activity is of the last seven days, confirm a value that is not positive, else advance; its priority likewise |
| DealAdvice.BasesTellFactsApart | src/revenueActions/revenueActionBasis.js:37-135 | equal fingerprints mean the same stage, recorded next action, currency, newest activity, positive amount and names |
| Deals.EffectsAreLeftOut | src/revenueActions/revenueActionService.js:93-138 | records that are effects of the action, any number of them anywhere in the list, are invisible to the fingerprint that excludes that action's effects |
| RevenueActionService.LocalService.Materialize | src/revenueActions/revenueActionService.js:180-340 | the call's sequence of writes, with a stop between them, is the Materialize step on the whole store; the invariant is kept and nothing is taken back |
| RevenueActionService.LocalService.ValidateCurrent | src/revenueActions/revenueActionService.js:140-178 | refuses and cancels exactly when the opportunity closed or its fingerprint changed; otherwise the store is untouched |
| RevenueActionService.LocalService.Prepare | src/revenueActions/revenueActionService.js:375-402 | new store and answer are those of the Prepare step; the invariant is kept and nothing is taken back |
| RevenueActionService.LocalService.Approve | src/revenueActions/revenueActionService.js:404-441 | new store and answer are those of the Approve step; the invariant is kept and nothing is taken back |
| RevenueActionService.LocalService.Reject | src/revenueActions/revenueActionService.js:443-476 | new store and answer are those of the Reject step; the invariant is kept and nothing is taken back |
| RevenueActionService.LocalService.Cancel | src/revenueActions/revenueActionService.js:478-508 | new store and answer are those of the Cancel step; the invariant is kept and nothing is taken back |
| RevenueActionService.LocalService.Attempt | src/revenueActions/revenueActionService.js:715-767 | write by write, with a crash or a throw between any two writes, the attempt leaves the store of that point, with the failure record after a throw |
| RevenueActionService.LocalService.Execute | src/revenueActions/revenueActionService.js:678-767 | new store and answer are those of the Execute step for every fault; from a store that satisfies the invariant the call keeps it, and takes back no log entry, terminal record or link |
| RevenueActionService.LocalService.ReplaceRevenueAction | src/revenueActions/revenueActionRepository.js:32-39 | replaces the stored record of that id and nothing else |
| RevenueActionService.LocalService.CreateTask | src/revenueActions/revenueActionRepository.js:130-166 | collection, task and created flag are those of EnsureTask |
| RevenueActionRecovery.TakenOverExactlyWhen | src/revenueActions/revenueActionRepository.js:94-128 | a task is taken over exactly when it is an unlinked one of the advice that matches once it is linked |
| RevenueActionService.LocalService.CreateActivity | src/revenueActions/revenueActionRepository.js:178-202 | collection and activity are those of EnsureActivity |
| RevenueActionService.LocalService.SetOpportunityNextAction | src/revenueActions/revenueActionRepository.js:204-212 | the opportunity gets the title as its next action, no other record changes |
| RevenueActionInvariant.EnsureTaskLinks | src/revenueActions/revenueActionRepository.js:130-166 | a linked task is reused untouched; otherwise exactly one task becomes linked, no other action's links move and task ids stay distinct |
| RevenueActionInvariant.EnsureActivityLinks | src/revenueActions/revenueActionRepository.js:168-202 | a linked activity is reused; otherwise exactly the given one is appended and no other action's links move |
| RevenueActionInvariant.LogTellsStatusAndAttempts | src/revenueActions/revenueActionService.js:62-71 | in every replayable log the status is a function of the last entry and execution_attempts counts the EXECUTION_STARTED entries |
| RevenueActionInvariant.StartsAreApproved | src/revenueActions/revenueActionService.js:689-691 | every EXECUTION_STARTED entry comes after an APPROVED entry, and approved_at is the time of the approval |
| RevenueActionInvariant.TerminalEntriesAreLast | src/revenueActions/revenueActionService.js:375-508 | nothing follows an entry that ends the lifecycle |
| RevenueActionRuns.EveryPointIsGood | src/revenueActions/revenueActionService.js:715-767 | the store at every point where an execution can be interrupted keeps the invariant and takes nothing back |
| RevenueActionRuns.EveryStepIsGood | src/revenueActions/revenueActionService.js:234-767 | every service call, interrupted anywhere, and every foreign write keeps the invariant, all logs as prefixes, terminal records and links |
| RevenueActionRuns.InvHolds | src/revenueActions/revenueActionService.js:234-767 | the invariant holds in every store of every run from a store without revenue actions |
| RevenueActionRuns.EffectsHappenOnce | src/revenueActions/revenueActionService.js:678-767 | in every reachable store an action has at most one linked task and one linked activity, an internal activity stands beside the task it names, and any effect implies an approval before the first start |
| RevenueActionRuns.LinkedEffectsStay | src/revenueActions/revenueActionService.js:130-202 | the task and activity linked at one moment of a run are those linked at every later moment |
| RevenueActionRuns.OneLiveAction | src/revenueActions/revenueActionService.js:180-340 | in every reachable store at most one action per opportunity is active, every record is the replay of its log, and status and attempts are those the log tells |
| RevenueActionRuns.TerminalIsAbsorbing | src/revenueActions/revenueActionService.js:352-508 | EXECUTED, REJECTED and CANCELLED records are unchanged for the rest of every run, and logs only grow |
| RevenueActionRuns.MaterializeSparesEffects | src/revenueActions/revenueActionService.js:180-232 | materialisation leaves every action with linked effects exactly as it is |
| RevenueActionGrounds.MaterializedExactlyWhen | src/revenueActions/revenueActionService.js:234-340 | materialisation is refused exactly when the opportunity is missing or over or an action made from other evidence has effects to recover; else it cancels the actions made from other evidence and answers with the active one made from the present evidence, new exactly when there was none |
| RevenueActionGrounds.PreparedExactlyWhen | src/revenueActions/revenueActionService.js:375-402 | a preparation is granted exactly to a recommended or prepared action whose opportunity is open and still gives the advice it was made from; failing evidence cancels the action |
| RevenueActionGrounds.ApprovedExactlyWhen | src/revenueActions/revenueActionService.js:404-441 | the same of an approval, first or repeated: evidence that no longer stands cancels the action and answers closed or stale |
| RevenueActionGrounds.RejectedExactlyWhen | src/revenueActions/revenueActionService.js:443-476 | a rejection is granted exactly to a prepared action and logs the reason given, if any |
| RevenueActionGrounds.CancelledExactlyWhen | src/revenueActions/revenueActionService.js:478-508 | a cancellation is granted exactly before an approval |
| RevenueActionGrounds.UnconfirmedIsRefused | src/revenueActions/revenueActionService.js:689-690 | an unconfirmed execution of an approved, executing or failed message answers that confirmation is required and writes nothing |
| RevenueActionGrounds.UnconfirmedWritesNothing | src/revenueActions/revenueActionService.js:678-713 | in every status an unconfirmed execution of a message leaves the store as it was, and succeeds only where it is EXECUTED already |
| RevenueActionGrounds.InternalWorkNeedsNoConfirmation | src/revenueActions/revenueActionService.js:678-713 | the confirmation makes no difference to the execution of internal work |
| RevenueActionGrounds.NotExecutedExactlyWhen | src/revenueActions/revenueActionService.js:678-688 | in a status other than approved, executing or failed nothing is written: an EXECUTED action answers again as it is, any other is refused |
| RevenueActionGrounds.ConflictsExactlyWhen | src/revenueActions/revenueActionService.js:701-706 | an execution answers with a conflict exactly when linked records are not those its executions write, says which, and writes nothing |
| RevenueActionGrounds.StartsExactlyWhen | src/revenueActions/revenueActionService.js:691-713 | an execution whose effects are not complete starts an attempt exactly when the evidence stands, own effects left out, and otherwise cancels it, or answers not found when the opportunity is gone |
| RevenueActionGrounds.EntriesHaveGrounds | src/revenueActions/revenueActionService.js:234-767 | over every run an action gains a log entry only by the call entitled to it: prepared, approved and started on evidence that stands in the store before the step, a message started and finished only in a confirmed call of its id |
| RevenueActionGrounds.LinksHaveGrounds | src/revenueActions/revenueActionService.js:715-742 | over every run links of an action grow only by an execution of it, and those of a message only by a confirmed one |
| RevenueActionRuns.RunsAreReady | src/revenueActions/revenueActionService.js:564-582 | in every reachable store an approved action carries the proposal that its type needs for execution |
| RevenueActionLimits.FailureReports | src/revenueActions/revenueActionService.js:743-763 | after a throw at any write the record holds the started attempt, its failure and their log entries, and is otherwise as before |
| RevenueActionRuns.FailureOverwritesExecuted | src/revenueActions/revenueActionService.js:743-763 | a failure record written after EXECUTED leaves the same store as if EXECUTED had never been written |
| RevenueActionRecovery.InspectorAccepts | src/revenueActions/revenueActionService.js:590-659 | inspectExecutionEffects reports no conflict exactly for valid effects, and complete, task, activity and absence of effects are what they should be |
| RevenueActionRecovery.AcceptedAreWritten | src/revenueActions/revenueActionService.js:590-659 | the inspector accepts exactly the task and activity records that executions of the action write, but for the fields it does not read |
| RevenueActionRecovery.CurrentAfterNextAction | src/revenueActions/revenueActionService.js:532-562 | writing the next action keeps the approved fingerprint current if and only if the title does not count as a next action and records as the same text |
| RevenueActionRecovery.AttemptIsRecoverable | src/revenueActions/revenueActionService.js:715-767 | an attempt interrupted anywhere leaves the action EXECUTED or recoverable, and EXECUTED if it was not interrupted |
| RevenueActionRecovery.ExecuteIsRecoverable | src/revenueActions/revenueActionService.js:678-767 | the same for the whole call, including its reconciliation of effects already there |
| RevenueActionRecovery.ApprovedIsRecoverable | src/revenueActions/revenueActionService.js:678-713 | an approved action with a safe title and current advice is recoverable before its first execution |
| RevenueActionRecovery.RecoveryCompletes | src/revenueActions/revenueActionService.js:678-767 | after any number of interrupted executions the first one that runs to its end leaves EXECUTED with the task and the activity that any earlier call had linked |
| RevenueActionDelivery.ExecutionDelivers | src/revenueActions/revenueActionService.js:510-582 | an attempt that runs to its end leaves EXECUTED naming exactly one valid activity, exactly one valid task for internal work, and for CREATE_TASK that task's title as next action |
| RevenueActionDelivery.ExecutionReports | src/revenueActions/revenueActionService.js:510-582 | a completed attempt reports a message as confirmed by the user and a task as created exactly when there is one task more than before, and keeps mode and time of its start |
| RevenueActionLimits.ExecutedIsTakenBack | src/revenueActions/revenueActionService.js:743-763 | an EXECUTED record that was written is replaced by FAILED exactly when something throws after the write inside the try block |
| RevenueActionDelivery.CompleteIsReconciled | src/revenueActions/revenueActionService.js:661-672 | an action in recovery whose effects are complete is recorded as EXECUTED with exactly the linked task and activity and no other change, whatever the advice has become |
| RevenueActionDelivery.TakenBackIsComplete | src/revenueActions/revenueActionService.js:743-763 | after EXECUTED was overwritten the effects are found complete if and only if the title of the task in use was the proposed one |
| RevenueActionDelivery.TakenBackIsRestored | src/revenueActions/revenueActionService.js:678-713 | while effects are found complete, a retry restores EXECUTED with the very links that had been recorded, even if the advice is no longer current |
| RevenueActionLimits.RecoveryNeedsSafeTitle | src/revenueActions/revenueActionService.js:640-647 | interrupted after the next action was written, a CREATE_TASK retry completes if and only if the title of the task in use was safe before the call; otherwise the retry cancels the action as stale |
| RevenueActionLimits.RetitledTaskLosesRecovery | src/revenueActions/revenueActionService.js:532-647 | a concrete store, an open task retitled since it was recorded, in which the retry cancels the action as stale |
| LeakCaseRebuild.ValueIsStable | src/revenueLeakCases/revenueLeakCaseDomain.js:135-199 | a normalised commercial value is its own normal form |
| LeakCaseRebuild.CanonicalKeepsSign | src/revenueLeakCases/revenueLeakCaseDomain.js:135-185 | a representable literal that is not negative stays so, and stays canonical, when it is canonicalised |
| LeakCaseRebuild.BuilderIsIdempotent | src/revenueLeakCases/revenueLeakCaseDomain.js:207-379 | the detection builder, fed with the fields of what it built, builds the same detection with the same keys |
| LeakCaseRebuild.BuiltRecordIsPersisted | src/revenueLeakCases/revenueLeakCaseDomain.js:207-379 | the record of any built detection passes the persisted-record validator, full rebuild included |
| LeakCaseLogs.NormalizedExactlyWhen | src/revenueLeakCases/revenueLeakCaseDomain.js:135-185 | a commercial value is normalised exactly when it is known with a usable amount and a currency code, or of no amount and without both; a known one keeps its rational value |
| LeakCaseLogs.BuiltExactlyWhen | src/revenueLeakCases/revenueLeakCaseDomain.js:207-379 | a detection is built exactly from an input whose texts are given within their bytes, of a supported kind, with a sound value, evidence and condition, and its content is that input trimmed and normalised |
| LeakCaseLogs.KeysTellMeaning | src/revenueLeakCases/revenueLeakCaseDomain.js:207-379 | two built detections have equal semantic keys exactly when their contents differ in id and time at most |
| LeakCaseValidation.CheckEntry | src/revenueLeakCases/jsonRevenueLeakCaseRepository.js:161-251 | one turn of the audit loop admits exactly the entries that the replay admits, with the same next state |
| LeakCaseLogs.ReplayedExactlyWhen | src/revenueLeakCases/jsonRevenueLeakCaseRepository.js:161-251 | a log is accepted exactly when it opens with the detection and every later entry is well said, not before it, not after an end, snoozes alternate with reopenings and one link is logged at most; the replayed state is the one told |
| LeakCaseValidation.ValidateAuditAndLifecycle | src/revenueLeakCases/jsonRevenueLeakCaseRepository.js:124-256 | accepts exactly the records whose lifecycle fields are the replay of their audit log |
| LeakCaseValidation.ValidatePersistedCase | src/revenueLeakCases/jsonRevenueLeakCaseRepository.js:258-341 | accepts exactly the rebuilt, replayed records of the tenant |
| LeakCaseValidation.IndexCollection | src/revenueLeakCases/jsonRevenueLeakCaseRepository.js:358-371 | accepts exactly distinct ids, distinct active series and distinct active meanings, and then indexes every record |
| LeakCaseValidation.ValidatePointers | src/revenueLeakCases/jsonRevenueLeakCaseRepository.js:372-403 | accepts exactly a record whose action link, predecessor and replacement pointers are in order |
| LeakCaseValidation.ValidateCaseCollection | src/revenueLeakCases/jsonRevenueLeakCaseRepository.js:358-405 | accepts exactly the collections of the acceptance predicate |
| LeakCaseRepository.JsonRepository.ReconcileOne | src/revenueLeakCases/jsonRevenueLeakCaseRepository.js:461-540 | working copy and answer are those of the reconciliation step |
| LeakCaseRepository.JsonRepository.Reconcile | src/revenueLeakCases/jsonRevenueLeakCaseRepository.js:572-584 | the stored collection changes exactly when the step settled and both checks passed; an accepted store stays accepted and cases only grow |
| LeakCaseRepository.JsonRepository.ReconcileBatch | src/revenueLeakCases/jsonRevenueLeakCaseRepository.js:586-603 | all detections on one working copy, one write, and none when nothing was created; an accepted store stays accepted and cases only grow |
| LeakCaseRepository.JsonRepository.Transition | src/revenueLeakCases/jsonRevenueLeakCaseRepository.js:647-722 | the stored collection and the answer are those of the transition step; an accepted store stays accepted and cases only grow |
| LeakCaseRepository.JsonRepository.LinkRevenueAction | src/revenueLeakCases/jsonRevenueLeakCaseRepository.js:724-792 | the stored collection and the answer are those of the link step; an accepted store stays accepted and cases only grow |
| LeakCaseInvariant.InvIsAccepted | src/revenueLeakCases/jsonRevenueLeakCaseRepository.js:358-405 | a collection whose series are chains of replayed records is accepted by the collection check |
| LeakCaseAcceptance.TransitionCheckIsExact | src/revenueLeakCases/jsonRevenueLeakCaseRepository.js:647-722 | from any accepted collection the write check of a transition that passed its guards refuses exactly when the subject exceeds 512 bytes or the time precedes the detection |
| LeakCaseAcceptance.LinkCheckIsExact | src/revenueLeakCases/jsonRevenueLeakCaseRepository.js:724-792 | from any accepted collection the same for a link to a usable action, plus an action id of at most 255 bytes |
| LeakCaseAcceptance.SuccessionIsExact | src/revenueLeakCases/jsonRevenueLeakCaseRepository.js:461-540 | from any accepted collection superseding the active case is accepted exactly when its log can hold subject and time and no case names it as predecessor yet |
| LeakCaseAcceptance.RestartIsExact | src/revenueLeakCases/jsonRevenueLeakCaseRepository.js:461-540 | from any accepted collection continuing a series without active case is accepted exactly when the case that the sort puts first is not later and was dismissed |
| LeakCaseAcceptance.ReconcileCheckIsExact | src/revenueLeakCases/jsonRevenueLeakCaseRepository.js:461-584 | the write check of a created case, from any accepted collection, refuses exactly under those conditions, all of which can be read off before the call |
| LeakCaseAcceptance.ReconcileRefusal | src/revenueLeakCases/jsonRevenueLeakCaseRepository.js:572-584 | a whole reconcile call on an accepted store is an integrity conflict exactly when its write check refuses, and otherwise fails only for an unknown opportunity |
| LeakCaseAcceptance.TransitionRefusal | src/revenueLeakCases/jsonRevenueLeakCaseRepository.js:647-722 | a whole transition call on an accepted store is an integrity conflict exactly when it is granted and its subject or time cannot be logged |
| LeakCaseAcceptance.LinkRefusal | src/revenueLeakCases/jsonRevenueLeakCaseRepository.js:724-792 | a whole link call on an accepted store is an integrity conflict exactly when it precedes the action or cannot be logged |
| LeakCaseAnswers.AnsweredUnseen | src/revenueLeakCases/jsonRevenueLeakCaseRepository.js:572-732 | another tenant finds no case and no source, a collection that is not accepted answers nothing but a conflict, and otherwise a case is not found exactly when no record has its id |
| LeakCaseAnswers.TransitionedExactlyWhen | src/revenueLeakCases/jsonRevenueLeakCaseRepository.js:647-722 | a transition on an accepted store is refused exactly when state, reason or wake time forbid it; a granted one moves the one record to the state asked for by one log entry, or conflicts when that cannot be logged |
| LeakCaseAnswers.LinkedExactlyWhen | src/revenueLeakCases/jsonRevenueLeakCaseRepository.js:724-792 | a terminal case takes no link, a linked one confirms its action and refuses every other, an open one takes the only stored action of the id if it is of the same opportunity and not newer |
| LeakCaseAnswers.ReconciledExactlyWhen | src/revenueLeakCases/jsonRevenueLeakCaseRepository.js:461-540 | a detection of the meaning of the active case, or of the newest one when none is active, is a duplicate and changes nothing; any other opens a case naming that case, and the answer names a superseded case exactly when there was an active one |
| LeakCaseFreeRuns.BatchIsTidy | src/revenueLeakCases/jsonRevenueLeakCaseRepository.js:586-603 | a batch leaves no active case named as predecessor although only its end is checked |
| LeakCaseFreeRuns.FreeStepKeepsTidy | src/revenueLeakCases/jsonRevenueLeakCaseRepository.js:461-792 | every operation, whatever its subject, time and ids, keeps the collection accepted and every active case unnamed as predecessor |
| LeakCaseFreeRuns.FreeRunsAreTidy | src/revenueLeakCases/jsonRevenueLeakCaseRepository.js:461-792 | both hold in every store of every run, without any assumption on the acts |
| LeakCaseFreeRuns.ReachableCheckIsExact | src/revenueLeakCases/jsonRevenueLeakCaseRepository.js:461-584 | in every reachable store the write check of a created case refuses exactly when the active case cannot log it, or, without one, when the first case of the sort is later or was superseded |
| LeakCaseReconcile.ReconcileKeepsInv | src/revenueLeakCases/jsonRevenueLeakCaseRepository.js:461-540 | under increasing detection times an orderly reconciliation keeps every series one chain |
| LeakCaseRuns.LegitimateKeepsAll | src/revenueLeakCases/jsonRevenueLeakCaseRepository.js:461-584 | a legitimate reconciliation is accepted, keeps chains and increasing times, and only lets cases grow |
| LeakCaseRuns.BatchKeepsAll | src/revenueLeakCases/jsonRevenueLeakCaseRepository.js:586-603 | a legitimate batch is never refused by the check before its one write |
| LeakCaseRuns.ActionStepsKeepAcceptance | src/revenueLeakCases/jsonRevenueLeakCaseRepository.js:343-381 | no revenue action step, interrupted or not, makes an accepted case collection unacceptable |
| LeakCaseTheorems.ReconcileIsNotRefused | src/revenueLeakCases/jsonRevenueLeakCaseRepository.js:572-584 | a legitimate reconcile fails only for an unknown opportunity |
| LeakCaseTheorems.TransitionIsNotRefused | src/revenueLeakCases/jsonRevenueLeakCaseRepository.js:647-722 | a timely transition fails only by its own guard |
| LeakCaseTheorems.LinkIsNotRefused | src/revenueLeakCases/jsonRevenueLeakCaseRepository.js:724-792 | a timely link is an integrity conflict only when it would precede the creation of the action |
| LeakCaseTheorems.StepKeepsSound | src/revenueLeakCases/jsonRevenueLeakCaseRepository.js:461-792 | every operation of the case store and every revenue action event keeps both stores sound, and cases only grow |
| LeakCaseTheorems.RunsAreSound | src/revenueLeakCases/jsonRevenueLeakCaseRepository.js:461-792 | chains, increasing times and the action invariant hold in every world of every run |
| LeakCaseTheorems.RunsAreAccepted | src/revenueLeakCases/jsonRevenueLeakCaseRepository.js:358-405 | every store of every run is accepted by the check that guards reads |
| LeakCaseHistory.SeriesAreLinear | src/revenueLeakCases/jsonRevenueLeakCaseRepository.js:461-540 | in every store of every run, a series whose cases have different detection times lies in strictly increasing detected_at: the first case supersedes none, every other one its neighbour, and every older one is dismissed or superseded by exactly its successor |
| LeakCaseHistory.FreeStepGrows | src/revenueLeakCases/jsonRevenueLeakCaseRepository.js:124-256 | every operation, granted or refused and whatever its arguments, keeps each case's content, its log as a prefix, its link once set and everything once terminal |
| LeakCaseHistory.LogsOnlyGrow | src/revenueLeakCases/jsonRevenueLeakCaseRepository.js:124-256 | between any two moments of any run, without any assumption on the acts, the same holds of every case, and its lifecycle fields are the replay of its log |
| LeakCaseRefusals.EqualTimesAreRefused | src/revenueLeakCases/jsonRevenueLeakCaseRepository.js:461-540 | three detections at one time, the second dismissed: the third is refused as an integrity conflict although the collection was accepted |
| LeakCaseRefusals.SimultaneousDetections | src/revenueLeakCases/jsonRevenueLeakCaseRepository.js:461-540 | such detections exist |
| LeakCaseRefusals.ForkIsRefused | src/revenueLeakCases/jsonRevenueLeakCaseRepository.js:383-393 | an accepted collection in which a dismissed case names an open one: a later detection of the series is refused as an integrity conflict |
| LeakCaseRefusals.SuccessiveDetections | src/revenueLeakCases/jsonRevenueLeakCaseRepository.js:383-393 | detections for such a collection exist |
| DetectorLoops.NormalizeActivities | src/revenueLeakCases/stalledOpportunityDetector.js:288-322 | the two validation passes and the sort give the order-free normal form or its error |
| DetectorLoops.NormalizeTasks | src/revenueLeakCases/stalledOpportunityDetector.js:324-403 | the four validation passes and the sort give the order-free normal form or its error |
| DetectorOrder.ActivitiesIgnoreOrder | src/revenueLeakCases/stalledOpportunityDetector.js:288-322 | permuted activity records give the same normalised list or the same error |
| DetectorOrder.TasksIgnoreOrder | src/revenueLeakCases/stalledOpportunityDetector.js:324-403 | permuted task records give the same normalised list or the same error |
| DetectorOrder.EvaluationIgnoresOrder | src/revenueLeakCases/stalledOpportunityDetector.js:75-240 | permuting activities and tasks changes neither outcome, reason, evidence nor detection, nor which error is reported |
| DetectorWindow.BaselineIsLatest | src/revenueLeakCases/stalledOpportunityDetector.js:510-526 | the baseline is the newest created activity, the least id among equals |
| DetectorWindow.BaselineIsStamp | src/revenueLeakCases/stalledOpportunityDetector.js:127-160 | the baseline is one of the source times, so it never lies after the newest of them |
| DetectorWindow.LeakWindow | src/revenueLeakCases/stalledOpportunityDetector.js:127-239 | on idle evidence a leak is reported exactly from max(newest source time, baseline + 14 days) to newest source time + 90 days, an interval that is never empty, with the same evaluation throughout |
| DetectorWindow.TimeDecides | src/revenueLeakCases/stalledOpportunityDetector.js:132-175 | with a baseline, before the newest source time the source is in the future, after 90 more days it is too old, exactly in between the evidence is eligible, and recent activity is reported exactly before baseline + 14 days |
| DetectorEvidence.GatheredExactlyWhen | src/revenueLeakCases/stalledOpportunityDetector.js:83-160 | evidence gets past the checks before the clock exactly when opportunity, own activities and own tasks are sound: named, of known stage and status, with readable times in order, own ids and a usable value |
| DetectorEvidence.PlannedExactlyWhen | src/revenueLeakCases/stalledOpportunityDetector.js:405-425 | something is planned exactly when the recorded next action is a text neither blank nor unknown or some task of the opportunity is OPEN or IN_PROGRESS, and the tasks named are exactly those |
| DetectorEvidence.CommercialExactly | src/revenueLeakCases/stalledOpportunityDetector.js:427-493 | a value is sound exactly when currency and amount are missing or usable; it is known exactly when both are given, and then denotes the same rational |
| DetectorEvidence.BaselineExactly | src/revenueLeakCases/stalledOpportunityDetector.js:510-526 | the baseline is the newest creation of an own activity, or the creation of the opportunity when it has none |
| DetectorEvidence.DecidedExactlyWhen | src/revenueLeakCases/stalledOpportunityDetector.js:162-239 | on sound evidence every reason is given exactly when it applies, told from the stored records: a leak exactly when an opportunity in progress is eligible, stalled for fourteen days and nothing is planned, NEXT_ACTION_PRESENT exactly when such a one is planned |
| DetectorReasons.SuppressedExactlyWhen | src/revenueLeakCases/stalledOpportunityDetector.js:77-160 | evidence that is not sound gives no detection; it is insufficient when a named opportunity has no stage, and otherwise suppressed for the first thing that is wrong with it, told from the stored records |
| DetectorReasons.ListsAreNeeded | src/revenueLeakCases/stalledOpportunityDetector.js:288-340 | without a list of activities or of tasks a sound opportunity is suppressed for the one that is missing first |
| DetectorEvidence.SourcesTellFactsApart | src/revenueLeakCases/stalledOpportunityDetector.js:200-222 | what is hashed of a detection tells apart stage, baseline, next action, value and newest source time |
| DetectorEvidence.DetectionTells | src/revenueLeakCases/stalledOpportunityDetector.js:222-239 | a detection is of the opportunity itself, observed at the newest of its source times |
| PortfolioScan.LeakHasDetection | src/revenueLeakCases/revenueLeakCaseService.js:417-437 | an evaluation carries a detection exactly when its outcome is a leak |
| PortfolioScan.ItemsAreReported | src/revenueLeakCases/revenueLeakCaseService.js:442-456 | the report has one item per opportunity, reconciled exactly for the leaks |
| PortfolioScan.SummarizeScan | src/revenueLeakCases/revenueLeakCaseService.js:473-510 | the counting loop computes the counts of the items, by outcome, by reason and by disposition |
| PortfolioScan.ReasonsAreCounted | src/revenueLeakCases/revenueLeakCaseService.js:473-510 | the reasons listed under an outcome are those that occur, each with the number of its items |
| PortfolioScan.SummaryConserves | src/revenueLeakCases/revenueLeakCaseService.js:473-510 | outcome counts partition the evaluated opportunities; created, replayed and superseded partition the leaks |
| PortfolioScan.BuildDetections | src/revenueLeakCases/revenueLeakCaseService.js:408-437 | the loop builds a detection for every evaluation that has one, in order, each under the next fresh id |
| PortfolioScan.ScanStalledOpportunities | src/revenueLeakCases/revenueLeakCaseService.js:398-471 | case store and report after the scan are those of the scan step |
| PortfolioReport.ReportTells | src/revenueLeakCases/revenueLeakCaseService.js:438-471 | a scan that goes through reports every opportunity once in strict order of ids, with the detector's outcome and reason, and for a leak the case of that opportunity as created, replayed or superseding |
| PortfolioReport.ScanRefusedExactlyWhen | src/revenueLeakCases/revenueLeakCaseService.js:325-352 | a scan is refused unread exactly for more than a hundred opportunities or for ids that are not usable and unique, and no failed scan changes the cases |
| PortfolioRescan.DetectionsAreSeparate | src/revenueLeakCases/revenueLeakCaseService.js:408-437 | the detections of one scan are of pairwise different series, whatever ids they get |
| PortfolioRescan.SecondBatchIsReplayed | src/revenueLeakCases/revenueLeakCaseService.js:438-456 | after a batch of different series that went through, in whatever store, a second one with the same meanings is answered by duplicates only and changes nothing |
| PortfolioRescan.WindowStands | src/revenueLeakCases/revenueLeakCaseService.js:354-370 | evidence evaluated at two times of the leak window gives the same detections |
| PortfolioRescan.RescanReplays | src/revenueLeakCases/revenueLeakCaseService.js:398-471 | in whatever store the first scan went through, a second scan while the evidence stands leaves the cases unchanged and reports every leak as replayed, whatever ids it draws |
| Handoff.HandoffService.CreateRevenueActionForCase | src/revenueLeakCases/revenueLeakCaseService.js:744-831 | both stores and the answer are those of the handoff step, stopped between its two writes or not |
| HandoffTheorems.EvaluationIsReport | src/revenueLeakCases/revenueLeakCaseService.js:548-565 | every detection says that nothing is planned and advises a follow-up, so that the expected action type is CREATE_TASK |
| HandoffTheorems.MaterializeReuses | src/revenueLeakCases/revenueLeakCaseService.js:719-742 | materialising while the advice is that of an active action answers with that action and writes nothing |
| HandoffTheorems.LinkedHandoffIsStable | src/revenueLeakCases/revenueLeakCaseService.js:756-768 | in every accepted store a linked case answers every further handoff with its action and changes neither cases nor actions |
| HandoffOutcome.StaleExactlyWhen | src/revenueLeakCases/revenueLeakCaseService.js:631-690 | a case is found stale exactly when its opportunity is there and the evidence reports no leak or one of another meaning |
| HandoffOutcome.AnsweredUnseen | src/revenueLeakCases/revenueLeakCaseService.js:744-768 | without looking at evidence another tenant and an unknown case find nothing, a case that is over is refused, and so is a linked one whose action is gone or does not fit |
| HandoffOutcome.HandedExactlyWhen | src/revenueLeakCases/revenueLeakCaseService.js:692-831 | a handoff of an open unlinked case stays without effect on a problem of the case, leaves the case alone when the action is refused or of another type, and else links it to the materialised action, or conflicts when that cannot be logged |
| HandoffTheorems.StoppedHandoffResumes | src/revenueLeakCases/revenueLeakCaseService.js:744-831 | a handoff stopped after materialising is resumed, whatever happened to other cases, by a retry that creates no action, links the same one dated no earlier than its creation, and every handoff after that changes nothing |
| HandoffAdvice.OwnRecordsAreEnough | src/revenueLeakCases/revenueLeakCaseService.js:354-370 | the detector answers the same whether it is given all activities and tasks or those of the opportunity only |
| HandoffAdvice.ReportMeetsAdvice | src/revenueLeakCases/revenueLeakCaseService.js:548-558 | on evidence of a leak the advice is to define a next action, unless the recorded one reads n/a, na or not known |
| HandoffAdvice.HandedOffExactlyWhen | src/revenueLeakCases/revenueLeakCaseService.js:631-690 | a case with the meaning of the present report validates for handoff exactly when the recorded next action is not one of those texts; otherwise it is refused as incompatible |
| HandoffAdvice.NotApplicableIsDisputed | src/revenueLeakCases/revenueLeakCaseService.js:631-690 | a concrete opportunity with the next action n/a that is reported as a leak and whose next action is such a text |
| HandoffRetry.ReportValidatesAgain | src/revenueLeakCases/revenueLeakCaseService.js:631-690 | the same report validates a case again at any later time, under any usable id and subject, while opportunity, prospects and activities are unchanged |
| HandoffRetry.UnchangedEvidenceResumes | src/revenueLeakCases/revenueLeakCaseService.js:744-831 | while the detector's evidence is that of both stores, the case is untouched and the action is active, a retry inside the leak window links the same action, creates none and leaves the actions as they are, whatever happened to other cases |
| HandoffTheorems.HandoffKeepsSound | src/revenueLeakCases/revenueLeakCaseService.js:744-831 | wherever it stops a handoff keeps the cases accepted and the actions in order, cases only grow and actions only evolve; chains with increasing times stay so |
| ImportRecords.KindsAreExact | src/imports/csvParser.js:249-262 | the kind of a cell is how its trimmed lower-case text reads: blank, null, unknown, a decimal of value zero, a decimal of another value, or none of these, never two |
| Csv.ParseRecords | src/imports/csvParser.js:160-234 | the index loop computes what the recursive scanner makes of the text |
| CsvRoundTrip.PrintedIsScanned | src/imports/csvParser.js:160-234 | the printed form of any document within the limits, bare or quoted cells and LF, CRLF or CR ends mixed, is scanned to its table |
| CsvLanguage.ReadDocument | src/imports/csvParser.js:160-234 | a text that scans is the printed form of a document, which is found, and the table is within the limits |
| CsvLanguage.ScanningInvertsPrinting | src/imports/csvParser.js:160-234 | a text scans to a table if and only if the table is within the limits and the text is printed from a document with that table |
| CsvLanguage.PrintingIsUnambiguous | src/imports/csvParser.js:160-234 | two documents printed alike hold the same table |
| CsvLanguage.RoundTrip | src/imports/csvParser.js:160-234 | every table of nonempty rows within the limits, quoted and with any record ends, the last one optional, is scanned back |
| CsvLimits.RefusedExactlyWhen | src/imports/csvParser.js:160-234 | a printed document is refused at its first row beyond the limits: for one of its first 65 cells that is too long, else for more than 64 cells, else because 1001 rows came before |
| CsvLimits.UploadedExactlyWhen | src/imports/csvParser.js:68-127 | a scanned table is an upload exactly when it has a header row of short, nonblank headers that differ beyond case and spaces, at most 32000 cells and no row wider than the headers; then the upload holds every cell, each refusal told by its error |
| ImportTheorems.ParsedRowsAreClassified | src/imports/csvParser.js:36-127 | every row that the upload parser delivers carries the value kinds that the commit plan relies on |
| ReadinessRuntime.Runtime.MarkChecks | src/pilot/runtime.js:164-174 | publishes the checks and their conjunction unless closed |
| ReadinessRuntime.Runtime.ProbeReadiness | src/pilot/runtime.js:314-368 | starts a probe exactly when open and none is in flight, and keeps the safety invariant, as every method here does |
| ReadinessRuntime.Runtime.DatabaseRow | src/pilot/runtime.js:319-341 | new state is that of the row's arrival, with the early exits on a lacking row or a changed revision |
| ReadinessRuntime.Runtime.Memberships | src/pilot/runtime.js:333-341 | new state is that of the membership's arrival |
| ReadinessRuntime.Runtime.WorkFails | src/pilot/runtime.js:319-366 | new state is that of failed work |
| ReadinessRuntime.Runtime.ResultSettles | src/pilot/runtime.js:342-366 | publishes exactly once, and only for the present revision of an open runtime |
| ReadinessRuntime.Runtime.OnPoolError | src/pilot/runtime.js:305-309 | raises the revision and publishes unavailability |
| ReadinessRuntime.Runtime.CloseRuntime | src/pilot/runtime.js:390-404 | raises the revision once and closes readiness |
| ReadinessSafety.StepKeepsInv | src/pilot/runtime.js:305-438 | honest probes, a single flight and vouched-for readiness are kept by every event in every order |
| ReadinessSafety.InvHolds | src/pilot/runtime.js:305-438 | they hold after every sequence of events |
| ReadinessSafety.ReadyIsVouchedFor | src/pilot/runtime.js:305-438 | ready implies not closing, and the published checks come from a fully successful probe with no pool error and no shutdown since the call that started it |
| ReadinessSafety.OneProbeInFlight | src/pilot/runtime.js:314-366 | at most one probe has work in flight |
| ReadinessSafety.StaleProbesAreSilent | src/pilot/runtime.js:342-360 | in every run a probe started before a pool error or shutdown never changes the snapshot after it, whatever becomes of its work, answer and timeout |
| ReadinessSafety.ClosedForGood | src/pilot/runtime.js:152-186 | in every run the snapshot is constant and not ready from the moment the readiness record was closed |
| ReadinessReports.StartsExactlyWhen | src/pilot/runtime.js:314-319 | a call starts a probe exactly when no shutdown was asked for and the work of no earlier probe is pending |
| ReadinessReports.WorkIsTold | src/pilot/runtime.js:319-342 | the checks of a probe are those told by the events since its start: usable database when a row came first, current migrations when it was a current one, usable membership when the list then came with no pool error or shutdown before the row |
| ReadinessReports.LastReportStands | src/pilot/runtime.js:343-361 | while no shutdown was asked for, what is published is the last report: the first answer or timeout of a probe with no pool error since its start, good or bad, or a pool error |
| ReadinessReports.NothingReportedYet | src/pilot/runtime.js:152-186 | before the first report everything is unavailable |
| ReadinessReports.ReadyExactlyWhen | src/pilot/runtime.js:314-361 | the runtime is ready exactly when no shutdown was asked for and its last report is on a probe that had fully succeeded |
| ReadinessReports.ShutdownIsSaid | src/pilot/runtime.js:390-404 | from the first shutdown on the runtime is not ready and says that its database is closed |
| ImportSelections.ValidateSelections | src/imports/importMapping.js:228-252 | accepts exactly known targets and headers with no target and no column chosen twice, and then maps every target to its selection |
| ImportRows.MarkAutomaticSourceReuse | src/imports/importMapping.js:350-369 | a field loses its column exactly when another field has it too |
| ImportRows.MarkedAreSeparate | src/imports/importMapping.js:350-369 | after marking no two fields share a column |
| ImportRows.ValidateRows | src/imports/importMapping.js:371-515 | the loop with its two maps gives every row its own errors, a duplicate error exactly when an earlier row has its identity, and a repeated-row error exactly when an earlier row has its cells |
| ImportIssues.RowObjectsExactlyWhen | src/imports/importMapping.js:371-541 | a row has an issue of its own exactly when a required field is not mapped, a mapped field objects to its raw cell, or, among tasks, completed and its time disagree |
| ImportRows.CoverageOf | src/imports/importMapping.js:587-606 | covered, invalid and missing rows are counted exactly and partition the rows |
| ImportPlan.BuildDataHealth | src/imports/importMapping.js:543-585 | the health counts are those of the rows and their errors |
| ImportSelections.ReviewedAreAccepted | src/imports/importCommit.js:48-68 | the validation inside the analysis never refuses the completed selections of a reviewed request |
| ImportSelections.ReviewedMappingStands | src/imports/importCommit.js:48-68 | every field is planned with the column reviewed for it, and the automatic unmapping of shared columns takes nothing away |
| ImportPlan.Deduplicate | src/imports/importCommit.js:159-188 | the loop with firstByIdentity gives every row its disposition against the first row of its identity, and lists every conflict |
| ImportPlan.BuildCanonicalCommitPlan | src/imports/importCommit.js:86-211 | the built plan is the specified one: failed, conflicted or ready |
| ImportTheorems.NoConflictsMeansAgreement | src/imports/importCommit.js:159-188 | no conflict is raised exactly when all rows of an identity agree in payload and cells, not only with the first one |
| ImportTheorems.ConflictsAreListed | src/imports/importCommit.js:159-188 | the conflicts listed are exactly those of a row with the first row of its identity, each told by whether what they carry or only their cells differ |
| ImportTheorems.ReadyExactlyWhen | src/imports/importCommit.js:140-212 | a plan is ready exactly when no row is invalid on its own account and rows of one identity agree |
| ImportTheorems.EveryIdentityIsCommittedOnce | src/imports/importCommit.js:159-188 | in a ready plan every identity has exactly one committed row, the first one, and every other row of it is an exact duplicate that points there and equals it |
| ImportTheorems.ErrorsMeanDuplicate | src/imports/importCommit.js:140-188 | in a ready plan a row has errors exactly when it repeats an earlier identity |
| ImportTheorems.BlockedPlanConserves | src/imports/importCommit.js:296-331 | a blocked plan commits and skips nothing and counts every row under its outcome |
| ImportTheorems.NumbersKeepTheirValue | src/imports/importCommit.js:256-282 | in a ready plan the canonical text of a mapped numeric cell denotes the same rational as the raw cell |
| ImportRecords.RecordsHoldTheirCells | src/imports/importCommit.js:76-95 | in a ready plan a record holds the target of a mapped field exactly when the cell has a usable value for it, then null, zero, a number of the same value or the raw text as the cell says, and no target that is not mapped |
| ImportRecords.NumbersAreEvidenced | src/imports/importCommit.js:96-105 | a number field leaves evidence exactly when its cell says zero, a number or unknown, and then that kind, of a number the canonical text |
| ImportRecords.RowsKeepTheirIdentity | src/imports/importCommit.js:76-80 | a row of a ready plan is known by the raw text of its identity cell, which is neither blank, null nor unknown and has at most 512 bytes |
| ImportIssues.BlocksExactlyWhen | src/imports/importCommit.js:106-150 | a row blocks the plan exactly when it has an issue of its own, or its identity cell says nothing or is longer than 512 bytes; repeating another row does not block |
| ImportFacts.FactsCountRows | src/imports/importCommit.js:214-254 | the facts of a ready plan count the rows that hold a value, a stage, a way of contact, a good and a bad time, told from the raw cells, each for its collection |
| ImportFacts.IdentitiesAreCovered | src/imports/importCommit.js:214-254 | every row of a ready plan is covered by its identity |
| ImportTheorems.ReadyPlanConserves | src/pilotEvidence/pilotEvidenceDomain.js:154-178 | for a ready plan committed + skipped = total, quality_blocked_count = 0, quality_conflict_count = skipped, and the evidence validator accepts the facts exactly for the batch ids and row numbers it can hold |
| PortfolioScan.ScanFactsAreValid | src/pilotEvidence/pilotEvidenceDomain.js:184-194 | the facts of every completed scan satisfy validateScanFacts and count every opportunity once |
| OperatingQueue.KindIsExact | src/revenueLeakCases/revenueLeakOperatingQueue.js:185-187 | KNOWN_ZERO is exactly value = 0 and KNOWN_POSITIVE exactly value > 0 |
| OperatingQueue.KindIsTold | src/revenueLeakCases/revenueLeakOperatingQueue.js:185-187 | unknown and inapplicable values keep their kind, and an entry is of a known kind exactly when its value is classified so |
| OperatingQueue.ComparatorIsFactors | src/revenueLeakCases/revenueLeakOperatingQueue.js:402-424 | the comparator puts one entry before another exactly by the documented factors |
| OperatingQueue.QueueOrderIsStrict | src/revenueLeakCases/revenueLeakOperatingQueue.js:402-424 | on entries with distinct ids the comparator is a strict total order |
| OperatingQueue.UrgentCasesFirst | src/revenueLeakCases/revenueLeakOperatingQueue.js:380-424 | overdue cases precede all others; of the others those whose snooze is over come first and sleeping ones last |
| OperatingQueue.CurrenciesAreNotCompared | src/revenueLeakCases/revenueLeakOperatingQueue.js:402-424 | replacing amounts of different currencies never changes the comparison |
| OperatingQueue.LargerAmountFirst | src/revenueLeakCases/revenueLeakOperatingQueue.js:402-424 | within urgency and currency the larger rational value comes first |
| OperatingQueue.OlderFirst | src/revenueLeakCases/revenueLeakOperatingQueue.js:402-424 | between cases of the same value and plain urgency the one detected earlier comes first, then the smaller id |
| OperatingQueue.ShownExactlyWhen | src/revenueLeakCases/revenueLeakOperatingQueue.js:153-180 | an entry is built exactly for an active case that was detected by now and has a usable value |
| OperatingQueue.QueuedExactlyWhen | src/revenueLeakCases/revenueLeakOperatingQueue.js:107-180 | the whole queue is refused exactly when one of its cases is not to be shown |
| OperatingQueue.QueueIsSortedPermutation | src/revenueLeakCases/revenueLeakOperatingQueue.js:107-150 | the queue is a permutation of the entries, sorted strictly by the factors |
| QueueSummary.SummarizeValues | src/revenueLeakCases/revenueLeakOperatingQueue.js:426-475 | the loop with its counters and maps, and the rows made of them, are those of the specified sums |
| QueueSummary.SumsAreExact | src/revenueLeakCases/revenueLeakOperatingQueue.js:426-475 | the value kinds partition the entries, and the units of a currency are the exact rational sum of its positive values |
| QueueSummary.PositiveRowsAreExact | src/revenueLeakCases/revenueLeakOperatingQueue.js:456-465 | one row for every currency of positive values, in strict alphabetical order, each with its count and the text of its exact sum |
| QueueSummary.ZeroRowsAreExact | src/revenueLeakCases/revenueLeakOperatingQueue.js:466-471 | one row for every currency of zero values, in strict alphabetical order, each with its count |
| QueueSummary.PrintedTotalIsExact | src/revenueLeakCases/revenueLeakOperatingQueue.js:426-481 | the printed total of a currency denotes exactly the sum of its positive values |
| MonetarySummary.Accumulator.AddMonetaryAmount | src/opportunities/monetarySummary.js:20-40 | the accumulator's new state is the old one with this amount added |
| MonetarySummary.SummarizeAmounts | src/opportunities/monetarySummary.js:72-82 | the summary of the loop is that of all items |
| MonetarySummary.KnownExactlyWhen | src/opportunities/monetarySummary.js:20-27 | an amount is known exactly when it is a decimal of positive value that fits the scaled units, which then are that value |
| MonetarySummary.TotalsAreExact | src/opportunities/monetarySummary.js:20-40 | every amount is counted once as known, withheld or unknown, and the units of a currency are the exact rational sum |
| MonetarySummary.PrintedTotalIsExact | src/opportunities/monetarySummary.js:42-50 | the printed total of a currency denotes the exact sum, however large |
| MonetarySummary.RowsAreExact | src/opportunities/monetarySummary.js:42-50 | one row for every currency met, in strict alphabetical order, each with its count and the text of its exact sum |
| MonetarySummary.KnownTotalIsExact | src/opportunities/monetarySummary.js:42-70 | the single total is given exactly when there are known amounts and all are of one canonical currency, and denotes the sum of all known amounts |
| TopActions.ActionOrderIsStrict | src/intelligence/revenueIntelligence.js:140-212 | on actions of distinct opportunities the comparator is a strict total order |
| TopActions.ComparatorIsFactors | src/intelligence/revenueIntelligence.js:140-212 | the comparator puts one action first exactly by the documented lists of priorities, classifications and types, the stale risk, the rational value within a currency, the probability and the id |
| TopActions.CurrenciesAreNotCompared | src/intelligence/revenueIntelligence.js:175-194 | replacing amounts of different currencies never changes the comparison |
| TopActions.LargerAmountFirst | src/intelligence/revenueIntelligence.js:171-194 | at equal priority, classification and risk a known value precedes an unknown one, and within a currency the larger rational value comes first |
| TopActions.TopFiveAreFirst | src/intelligence/revenueIntelligence.js:359-363 | the five actions kept are sorted and precede every action left out |
| ProspectMerge.MergeProspects | src/prospects/prospectIngestion.js:357-453 | the loop with its key index computes the merge; added + updated is the incoming size and the total is existing + added |
| ProspectMerge.MergeKeeps | src/prospects/prospectIngestion.js:357-453 | every existing position keeps its id and key, keys stay distinct and every incoming key has its slot |
| ProspectMerge.FieldSays | src/prospects/prospectIngestion.js:17-28 | a field says its text, number or truth value with single blanks, and nothing when it is missing or null |
| ProspectMerge.KeysAgreeExactlyWhen | src/prospects/prospectIngestion.js:75-119 | two prospects get one key exactly when the same kind of field tells them, web site before mail before phone before name and address, and they agree on it |
| ProspectMerge.MergeReflects | src/prospects/prospectIngestion.js:400-432 | every merged prospect says what the incoming prospects of its key said last, field by field |
| ProspectMerge.SilentFieldsStay | src/prospects/prospectIngestion.js:400-432 | a stored prospect keeps every field of which no incoming prospect of its key speaks |
| ProspectMerge.MergeIsIdempotent | src/prospects/prospectIngestion.js:357-453 | merging the same normalised list again changes no record and adds none |

## Left out

- RevenueActionRecovery.RecoveryCompletes: no other writer between the calls, and the advice current at the times of the calls, as the promise itself demands; times of one call are one clock reading.
- RevenueActionRuns.EffectsHappenOnce: other writers may change opportunities, prospects and unlinked records at will, but do not add, remove or rewrite links to revenue actions.
- LeakCaseHistory.SeriesAreLinear: the times of the series are required to differ, because with equal times a series may branch, see LeakCaseAcceptance.RestartIsExact.
- HandoffTheorems.StoppedHandoffResumes: the retry is required to validate the case again; HandoffRetry.UnchangedEvidenceResumes derives that from unchanged evidence.
- HandoffRetry.UnchangedEvidenceResumes: the raw records of the detector are tied to the typed ones by id, normalised stage, next action, and the id, kind, opportunity and creation of the opportunity's activities; values and tasks are not tied, because the advice to define a next action reads neither.
- RevenueActionLimits.ExecutedIsTakenBack: that the refresh throws is a fault given as an argument, since it only reads collections and computes.
- ImportPlan.BuildDataHealth: only the counts that the facts of a commit read; the other counts, percentages and lists of the health report are not computed.
- PortfolioRescan.RescanReplays: the scan draws at least as many fresh identifiers as it has opportunities.
- ReadinessRuntime.Runtime.CloseRuntime: the waiting for server, probe and pool during shutdown is one later Stop event of the state machine.
- Task counts of the evidence, descriptions of tasks and activities, and `updated_at` stamps of actions, tasks and opportunities, none of which a modelled decision reads.
- A stop inside one collection write: a write happens whole or not at all.
- Unicode case mapping and normalisation (ASCII letters only), locale-specific collation, and UTF-16 code units (characters are Unicode scalars).
- JSON numbers beyond their printed literal, key order of objects, and the hexadecimal form of hashes.
- Number(value) on texts that are not decimal literals (hexadecimal, Infinity except as noted, underflow to zero).
- Date parsing: a stored timestamp is absent, unreadable or an instant; the timestamp grammar of imports and the URL normalisation of prospects are function parameters.
- Messages, field names and details of errors; only which error is raised is modelled. The wording of drafts, titles and reasons is modelled, but nothing is proved of it.
- Prospect fields that are arrays or objects, which read as blank.
- Base64 decoding, the byte limits of serialised uploads and previews, and ZIP signatures.
- Automatic mapping suggestions by names and aliases, type inference, samples and warnings of import rows; the declared-type and source-identity checks of a commit request.
- The eligibility report, queue entry fields other than order and value, health scores, risks and weighted values.
- Tenant contexts other than the local one, PostgreSQL and SQL, routers and user interface, pilot evidence events, observers and logging.
