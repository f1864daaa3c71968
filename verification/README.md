# Registration, ownership, reporting and compliance: a verified model

The Django backend under `bc_obps` registers industrial operations, records which operator answers
for each of them in which year, moves operations and facilities between owners, takes their emission
reports and charges them for excess emissions. This project models the parts of it that carry state,
loops or exact arithmetic, and proves what they keep.

Tables are maps, sets and sequences of records. A service that changes rows is a class whose methods
change them one at a time, and a failed transaction puts them back; each method is proved equal to a
function on table values, and the results below are lemmas about that function, about runs of steps,
or about several functions together. Clocks, new primary keys and the row order of queries are
parameters.

| module | what it is about |
|---|---|
| `Timelines` | rows with a start and an optional end; handing the open row over; the year lookup |
| `OwnershipQueries` | the bulk index and the previously-owned query against that lookup |
| `TransferModel`, `TransferProofs`, `TransferRuns`, `TransferOutcomes`, `TransferService` | transfer events, the daily run, what each request does, and every run of both |
| `OwnershipOverRuns` | after any timely run the three ownership questions agree and the past-report list misses nothing |
| `PastReports` | the list of past reports an operator is offered, against the check made when it creates one |
| `Fees` | dollars and tonnes as exact integers, and their round trips |
| `Supplementary`, `SupplementaryOutcomes` | the compliance versions of a report over any run of submissions: handlers, obligations, what is charged and shown |
| `FacilityReports` | what saving a report operation prunes, cascades to and leaves |
| `Reconcile` | the upserts that make the live rows equal the payload, and well numbers |
| `FormSchema`, `Decimals` | the source-type schema builder and its cache |
| `Naming` | stamped file names and obligation ids |
| `RegistrationModel`, `RegistrationProofs`, `RegistrationFrames`, `RegistrationRuns`, `RegistrationOutcomes`, `RegistrationEffects`, `RegistrationService` | registration as a state machine |

The main results:

- Over every run of creation, transfer and cron steps each timeline is contiguous with one open row that
  names the current owner, and active events never share an operation or a facility. The rows are in
  order at the end, by date or by year, exactly when nothing was transferred out of turn by that measure.
  Below, a timely run is one without a transfer dated in a year before that of the row it closes.
- A transfer effective in year E changes the year map from E on and nowhere else, unless it is dated in a
  year before that of the row it closes; and a whole timely run is, for every operation, the plain
  Year -> Operator map overwritten by the transfers that went through.
- The daily run has a closed form that mentions no order, so every order gives the same tables; a second
  run on the same day changes nothing, a run catches up on the days missed before it, and storing an event
  for its day leaves the same tables as carrying it out at once.
- A creation goes through exactly when nothing active overlaps, the parties differ, the rows exist and, if it
  is due, the party named owns what moves; it stores what it says, and what passes is what it names.
- The single lookup, the bulk index and the period-end query answer alike after every timely run.
- After every run somebody is designated for every operation and every year from 2024 on, so the fallback
  of the past-report flow is never taken and it creates exactly what the current year's flow would; after every timely one the past-report list misses no pair
  that would be accepted.
- Rates from $100 a tonne lose no tonnes, rates up to $100 lose no cents, and only those do; tonnes are off
  by at most 0.0001 exactly for rates above $100/3.
- Over every run of submissions an obligation exists exactly for the live versions with a positive computed
  excess, at the fee for it; together they charge the latest excess plus all decreases, within half a
  cent for each. A submission replaces the latest version exactly when nothing binding has happened, and
  an invoiced version stays for good.
- A creation always goes through, and an update exactly when the facilities it would clear can be removed
  and the type it would change is not fixed yet.
- After an update every document of the payload that the purpose keeps is the one live document of its type,
  and a new one; after a submission the operation is registered exactly if its information is complete.
- Every branch of a form asks for exactly what its own configuration element says.
- Registration keeps its invariants over every run, and the one-facility rule exactly as long as no
  facility move breaks it.

## What the code does differently from its documentation or intent

In each case the model follows the code, and a lemma says exactly when the intended behaviour holds.

- Updating a transfer event that is due at once carries out the event as it was fetched before the
  update (`bc_obps/service/transfer_event_service.py:364-371`); the facilities are read again, the
  operation and the date are not. `OperationUpdateAsStoredIff` and `FacilityUpdateAsStoredIff` give the
  conditions, `UpdateMovesTheOldOperation` an instance where the wrong operation changes hands.
- Nothing compares a transfer's date with the row it closes. `TransferKeepsOrderIff` says when order
  survives, `LaterYearsPassIff` when the year map is right nevertheless, `MatchedOnceIff` when every year still
  belongs to one row. A transfer dated in the year of the row it closes does no harm to any of the year
  queries. After one dated in an earlier year, index and lookup agree exactly as `BackdatedIndexAgreesIff`
  (in terms of dates, `BackdatedByDates`) says; `BackdatedTransferBreaksOrder` and `BackdatedIndexDiffers` are
  instances.
- Nothing compares `from_operator` with the present owner either, but the unique constraint on open rows
  refuses the new row, so an event goes through exactly when it names the owner (`SucceedsIffNamesOwner`).
- The past-report list marks only the last year of each pass (lines 923 and 947 of
  `bc_obps/service/operation_service.py`), so it offers pairs twice: `NoDuplicatesIff` says exactly when, and
  `ListOfOneOperation` shows it for an operation that was never transferred. Marked pair by pair, the list
  would hold each pair once and every accepted one (`ListMarkingEachPair`, `WantedExact`). On rows whose first start is
  later than the earliest listed year it would also drop a pair (`AcceptedPairsListedIff`); the services write
  no such rows, and after their timely runs it drops none (`ListMissesNothing`).
- The cache key of the form schema leaves `add_not_applicable_methodology` out. `AnsweredAfreshIff` and
  `CacheTransparentIff` give the exact condition under which the cache does not show; in
  `CacheShowsOtherFacility` a small aggregate's "Not Applicable" turns up in the form of another facility.
- The deletion of emission allocations at `bc_obps/service/facility_report_service.py:139-142` looks its
  product ids up after the products are gone and deletes nothing; the foreign key's cascade has already
  deleted them, so the result is the intended one (`PruneReportProducts`).
- The re-stamping of a file name recognises stamps of 2000-2099 only (`RestampAbsorbsIff`).
- Less than a tonne of credited emissions that changes to another amount below a tonne is no case of any
  supplementary handler (`SmallCreditsLeaveGap`; `SubmissionGapIff` is the exact condition): the report
  gets no compliance version, and no later submission of it is taken (`GapStays`, `SubmissionRefusedIff`).
- A transfer leaves a snapshot that protects its facility, so an import operation that was transferred cannot
  leave its purpose any more (`SnapshotForbidsChange`, with a run in `TransferredImportStays`).
  `UpdateSucceedsIff` says exactly which updates go through.
- `update_facility` stores the payload's operation id without a timeline row or the one-facility check
  (`MoveKeepsSingleIff`, `RunSingleIff`).

## Model

| member | source | states |
|---|---|---|
| Timelines.TransferSucceedsIffOwner | bc_obps/registration/models/operation_designated_operator_timeline.py:45-51 | closing the named owner's open row and inserting a new one passes the one-open-row constraint exactly when the named owner holds the open row |
| Timelines.TransferKeepsContiguous | bc_obps/service/transfer_event_service.py:284-307 | a transfer leaves every closed row ending where the next starts, one open row, owned by the new owner |
| Timelines.TransferKeepsOrderIff | bc_obps/service/transfer_event_service.py:287-307 | rows stay in order, by instant or by year, exactly when they were and the transfer is not dated before the row it closes by that measure |
| Timelines.ChainMatchesAtMostOne | bc_obps/service/operation_designated_operator_timeline_service.py:52-56 | two rows of a chain never match the same reporting year |
| Timelines.ChainLookupExact | bc_obps/service/operation_designated_operator_timeline_service.py:52-58 | the first-match lookup answers exactly from the first start year on, with the one row that matches |
| Timelines.LookupAnswersFrom | bc_obps/service/operation_designated_operator_timeline_service.py:52-58 | on any contiguous rows, in order or not, the lookup answers for every year from the first row's on |
| Timelines.MatchedOnceIff | bc_obps/service/operation_designated_operator_timeline_service.py:52-56 | on any contiguous rows each year from the first row's on belongs to one row exactly when no row starting after that year is closed in a year before its own |
| Timelines.EarlierYearsUnchanged | bc_obps/service/transfer_event_service.py:265-310 | years before the effective year keep their designated owner, whatever the dates |
| Timelines.LaterYearsPassIff | bc_obps/service/transfer_event_service.py:265-310 | all years from the effective one on pass to the new row exactly when the closed row does not start in a later year (or nothing preceded it) |
| Timelines.TransferRefinesYearMap | bc_obps/service/transfer_event_service.py:265-310 | a transfer not dated in a year before that of the row it closes overwrites the Year -> Owner map from its year on and nowhere else |
| Timelines.RunRefinesYearMap | bc_obps/service/transfer_event_service.py:265-310 | any sequence of timely transfers, several in a year included, keeps a chain and refines the overwritten map |
| OwnershipQueries.BuildIndex | bc_obps/service/operation_designated_operator_timeline_service.py:66-122 | the nested loops leave under each key in range the last row that covers it, and no other key |
| OwnershipQueries.LastWriteCovers | bc_obps/service/operation_designated_operator_timeline_service.py:99-120 | an indexed row covers its key, and a missing key is covered by no row |
| OwnershipQueries.BulkIndexIsSingleLookup | bc_obps/service/operation_designated_operator_timeline_service.py:43-122 | on chains the bulk index equals the single lookup for every operation and year, in whatever order the rows arrive |
| OwnershipQueries.BackdatedLookup | bc_obps/service/operation_designated_operator_timeline_service.py:52-58 | after a transfer dated in a year before that of the row it closes the lookup answers with the earlier row in force, if any, and else the new one from its year on |
| OwnershipQueries.BackdatedIndexAgreesIff | bc_obps/service/operation_designated_operator_timeline_service.py:86-120 | after such a transfer index and lookup agree on all years asked about exactly when no earlier row was in force in the first of them from the transfer on, or it is listed after the new one |
| OwnershipQueries.BackdatedByDates | bc_obps/service/operation_designated_operator_timeline_service.py:86-97 | in terms of dates: exactly when no earlier row was in force in the year of the transfer, or it starts after the transfer |
| OwnershipQueries.BackdatedIndexDiffers | bc_obps/service/operation_designated_operator_timeline_service.py:101-120 | a transfer of 2026 and one dated 2025: the lookup gives 2025 to the first operator, the index to the last |
| OwnershipQueries.VersionsOfPreviouslyOwned | bc_obps/compliance/service/compliance_report_version_service.py:226-260 | the OR built row by row selects a version exactly when some closed row of the operator contains its period end |
| OwnershipQueries.PeriodEndTestIsYearTest | bc_obps/compliance/service/compliance_report_version_service.py:244-250 | the comparison of dates with December 31 equals the year test on closed rows |
| OwnershipQueries.PreviouslyOwnedAgreesWithLookup | bc_obps/compliance/service/compliance_report_version_service.py:235-250 | on chains the query selects a version exactly when the lookup for its year gives a closed row of the operator |
| TransferProofs.VerdictIndependent | bc_obps/service/transfer_event_service.py:200-205 | whether a pending event goes through, and is timely, does not depend on which other pending events went first |
| TransferProofs.AfterOneMore | bc_obps/service/transfer_event_service.py:200-228 | processing one more pending event extends the order-free closed form by it, whether it succeeds or fails |
| TransferProofs.SucceedsIffNamesOwner | bc_obps/service/transfer_event_service.py:211-263 | an event goes through exactly when all it is going to move belongs to the owner it names |
| TransferProofs.MoveKeeps | bc_obps/service/transfer_event_service.py:230-263 | moving a set of rows keeps one open row per timeline naming the current owner, and order exactly when timely |
| TransferProofs.ProcessKeeps | bc_obps/service/transfer_event_service.py:211-228 | carrying out an event keeps the invariant, and order exactly when it was there and the event is timely |
| TransferProofs.NewEventKeepsInv | bc_obps/service/transfer_event_service.py:118-175 | the checks of event creation leave active events exclusive |
| TransferProofs.UpdatedEventKeepsInv | bc_obps/service/transfer_event_service.py:336-359 | so do those of an update, which leave out the event itself |
| TransferProofs.DeleteKeepsInv | bc_obps/service/transfer_event_service.py:330-334 | deleting a pending event keeps the invariant |
| TransferProofs.AfterKeeps | bc_obps/service/transfer_event_service.py:181-209 | a batch of pending events keeps the invariant, and order exactly when every event that goes through is timely |
| TransferProofs.FailureFailsAgain | bc_obps/service/transfer_event_service.py:201-205 | an event that fails stays as it was and fails again after the batch |
| TransferProofs.RunDueIdempotent | bc_obps/service/transfer_event_service.py:181-209 | a second daily run on the same day changes nothing |
| TransferRuns.StepKeeps | bc_obps/service/transfer_event_service.py:118-372 | every step keeps the invariant, and order, by instant or by year, exactly when the step is timely by that measure |
| TransferRuns.RunKeeps | bc_obps/service/transfer_event_service.py:118-372 | so does every run: contiguous timelines, one open row naming the owner, exclusive events; in order, by instant or by year, exactly when all steps were timely by that measure |
| TransferRuns.StepHonestIff | bc_obps/service/transfer_event_service.py:61-116 | pending events keep naming the present owner exactly when the event a step stores for later does; no transfer invalidates another pending event |
| TransferRuns.RunStaysHonest | bc_obps/service/transfer_event_service.py:118-310 | over runs that store only such events every pending event names the owner, and a daily run leaves nothing due |
| TransferRuns.RunDueRefinesYearMap | bc_obps/service/transfer_event_service.py:181-209 | a daily run overwrites the year map of exactly the operations it moves, from each event's year on |
| TransferRuns.ProcessRefinesYearMap | bc_obps/service/transfer_event_service.py:211-228 | one event carried out changes the year map of its own operation only, from its year on |
| TransferRuns.RunRefinesYearMap | bc_obps/service/transfer_event_service.py:118-372 | over a whole timely run every operation's year map, created on the way or not, is the old one overwritten by the transfers that went through, in turn |
| TransferRuns.RunDesignatesFrom2024 | bc_obps/service/operation_service.py:270-277 | over every run, timely or not, first rows keep the default start and every operation has a designated operator for every year from 2024 on |
| TransferRuns.OperationUpdateAsStoredIff | bc_obps/service/transfer_event_service.py:336-346 | an update that names an operation, whatever the event holds, does what it stored exactly when not yet due, or nothing to be moved changed, or both fail |
| TransferRuns.FacilityUpdateAsStoredIff | bc_obps/service/transfer_event_service.py:348-372 | for facility events only the date can be stale |
| TransferRuns.UpdateMovesTheOldOperation | bc_obps/service/transfer_event_service.py:361-372 | a state in which an update marks operation 2's transfer done and moves operation 1 |
| TransferRuns.BackdatedTransferBreaksOrder | bc_obps/service/transfer_event_service.py:106-116 | a transfer dated before the open row goes through and leaves the rows out of order |
| TransferOutcomes.ProcessOutcome | bc_obps/service/transfer_event_service.py:211-310 | carrying out an event succeeds exactly if what moves belongs to the owner named; then exactly that passes to the new owner on the effective date, and only the status of the event changes |
| TransferOutcomes.CreateSucceedsIff | bc_obps/service/transfer_event_service.py:118-170 | a creation goes through exactly when no active event overlaps, the parties differ, the rows exist and, if due, the party named owns what moves |
| TransferOutcomes.CreateOutcome | bc_obps/service/transfer_event_service.py:131-179 | one event is stored with the fields of the payload and nothing else changes; if due, exactly what the payload names passes and the event is marked |
| TransferOutcomes.CreateRefusals | bc_obps/service/transfer_event_service.py:125-162 | a refusal gives the first reason that applies: overlap, missing target, same party, unknown row, not the owner |
| TransferOutcomes.UpdateSucceedsIff | bc_obps/service/transfer_event_service.py:320-372 | an update goes through exactly for a pending event when no other active event overlaps, the rows exist and, if due, the event as before names the owner |
| TransferOutcomes.UpdateOutcome | bc_obps/service/transfer_event_service.py:336-372 | the payload is stored in the event, operation or facilities and date, and no other event changes; if due, what the event named before passes, or the new facilities |
| TransferOutcomes.UpdateRefusals | bc_obps/service/transfer_event_service.py:320-357 | a refusal gives the first reason that applies |
| TransferOutcomes.DeleteOutcome | bc_obps/service/transfer_event_service.py:320-334 | exactly pending events can be deleted; the event is gone and nothing else is |
| TransferOutcomes.RunLeavesAlone | bc_obps/service/transfer_event_service.py:187-193 | the daily run touches no event that is not pending or is dated after today, and no operation or facility that only such events hold |
| TransferOutcomes.RunCarriesOut | bc_obps/service/transfer_event_service.py:190-205 | every pending event dated today or earlier is marked and what it names has passed, exactly if it names the owner; else it stays pending |
| TransferOutcomes.HonestRunCarriesOut | bc_obps/service/transfer_event_service.py:181-209 | while pending events name the present owners, all that are dated today or earlier are carried out |
| TransferOutcomes.StoredForLaterIsAtOnce | bc_obps/service/transfer_event_service.py:106-116 | an event stored for later and carried out by the run of its day leaves the same tables as one carried out at once |
| TransferOutcomes.RunsCatchUp | bc_obps/service/transfer_event_service.py:181-209 | a run leaves the same tables whether or not earlier days were run |
| TransferService.TransferTables.MoveFacility | bc_obps/service/transfer_event_service.py:244-263 | one facility: its open row is closed, a new one inserted, its operation reassigned, or the insertion refused |
| TransferService.TransferTables.ProcessFacilitiesTransfer | bc_obps/service/transfer_event_service.py:230-263 | the loop moves all facilities of the event, or fails exactly when one of them cannot move |
| TransferService.TransferTables.ProcessOperationTransfer | bc_obps/service/transfer_event_service.py:265-310 | the operation's timeline and operator change hands together, or not at all |
| TransferService.TransferTables.ProcessSingleEvent | bc_obps/service/transfer_event_service.py:211-228 | an event is carried out and marked transferred, or leaves no trace |
| TransferService.TransferTables.ProcessEventIfEffective | bc_obps/service/transfer_event_service.py:106-116 | it is carried out exactly when its effective date is not in the future |
| TransferService.TransferTables.CreateTransferEvent | bc_obps/service/transfer_event_service.py:118-179 | the checks in order, the stored event, immediate processing, all or nothing |
| TransferService.TransferTables.UpdateTransferEvent | bc_obps/service/transfer_event_service.py:320-372 | the same for an update, which processes the event as fetched |
| TransferService.TransferTables.DeleteTransferEvent | bc_obps/service/transfer_event_service.py:320-334 | only pending events are deleted |
| TransferService.TransferTables.ProcessDueTransferEvents | bc_obps/service/transfer_event_service.py:181-209 | for any order of the due events the loop ends in the same order-free state, and lists exactly those that went through |
| OwnershipOverRuns.RunsLeaveChains | bc_obps/service/transfer_event_service.py:118-310 | after any timely run from empty tables each operation has a chain whose open row names its operator |
| OwnershipOverRuns.QueriesAgreeAfterRuns | bc_obps/compliance/service/compliance_report_version_service.py:235-250 | after any timely run the index, the lookup and the period-end query agree on every operation and year |
| OwnershipOverRuns.FallbackNeverTaken | bc_obps/service/report_service.py:134-151 | after any run a past report from 2024 on is accepted exactly for the designated operator and without an existing report |
| OwnershipOverRuns.PastFlowIsCurrentFlow | bc_obps/service/report_service.py:60-183 | after any run, for years from 2024 on, the past-report flow accepts exactly what the current flow would report for the same operator (given a required BORO ID), and creates the same |
| OwnershipOverRuns.ListMissesNothing | bc_obps/service/operation_service.py:890-949 | after any timely run every accepted pair from 2024 on is listed by designation, and what is listed is accepted exactly when designated |
| PastReports.OfferYears | bc_obps/service/operation_service.py:894-922 | one look at an operation adds exactly its unmarked, unreported and, in the first pass, designated years |
| PastReports.OfferDesignated | bc_obps/service/operation_service.py:890-923 | the first pass lists each row as often as counted, marking only the earliest year |
| PastReports.OfferFallbacks | bc_obps/service/operation_service.py:925-947 | the second pass does the same for the operations owned now |
| PastReports.ListPastReports | bc_obps/service/operation_service.py:832-949 | the list contains every row exactly as often as `TimesListed` counts, and fails exactly without previous years |
| PastReports.ListedRowsAccepted | bc_obps/service/report_service.py:112-155 | nothing listed has a report; designated rows are always accepted, fallback rows exactly when nobody was designated for the year (or the operator was) |
| PastReports.AcceptedPairsListedIff | bc_obps/service/operation_service.py:890-949 | the accepted pairs of registered operations that the list misses, exactly |
| PastReports.NoDuplicatesIff | bc_obps/service/operation_service.py:923-947 | when no pair is listed twice, exactly |
| PastReports.ListOfOneOperation | bc_obps/service/operation_service.py:890-949 | one operation as the services create it, never transferred: 2025 is offered twice, 2024 once |
| PastReports.ListMarkingEachPair | bc_obps/service/operation_service.py:890-949 | with each pair marked as it is added the list holds every wanted pair exactly once |
| PastReports.WantedExact | bc_obps/service/operation_service.py:832-845 | wanted are all accepted pairs; designated ones are all accepted, fallbacks exactly when nobody was designated |
| Fees.TonnesSurvive | bc_obps/compliance/service/compliance_obligation_service.py:75 | from $100 a tonne on, tonnes to cents to tonnes is the identity |
| Fees.BalanceSurvives | bc_obps/compliance/service/compliance_report_version_service.py:178-186 | up to $100 a tonne, cents to tonnes to cents is the identity |
| Fees.TonnesSurviveIff | bc_obps/compliance/service/compliance_obligation_service.py:75 | every amount survives exactly for rates of at least $100 |
| Fees.BalanceSurvivesIff | bc_obps/compliance/service/compliance_report_version_service.py:186 | every balance survives exactly for rates of at most $100 |
| Fees.TonnesErrorBound | bc_obps/compliance/service/compliance_report_version_service.py:178-186 | at any rate the tonne error is at most half a unit plus half a cent's worth |
| Fees.TonnesErrorWithinOneIff | bc_obps/compliance/service/compliance_report_version_service.py:178-186 | the tonne figure of every amount is within 0.0001 t exactly for rates above $100/3 |
| Fees.TonnesErrorAttained | bc_obps/compliance/migrations/0001_initial_squashed_0024_V5_0_0.py:39 | 0.0003 t at $80 attains it |
| Fees.HalfUpTie | bc_obps/compliance/service/compliance_obligation_service.py:75 | fees round a half away from zero |
| Fees.HalfEvenTie | bc_obps/compliance/service/compliance_report_version_service.py:186 | balances round a half to the even neighbour |
| Supplementary.ComplianceTables.HandleSubmission | bc_obps/compliance/service/supplementary_version_service/service.py:43-104 | a submission goes to the first version, the manual, the superseding or the first fitting handler, or leaves a gap; a failed look-up changes nothing |
| Supplementary.ComplianceTables.SupersedeLatest | bc_obps/compliance/service/supplementary_version_service/supercede_version_handler.py:61-112 | the latest version is superseded and gives up its obligation and credits; the new one gets its own |
| Supplementary.AppendKeeps | bc_obps/compliance/service/supplementary_version_service/increased_obligation_handler.py:32-49 | a version with the change as its delta, charged exactly for an increase, continues the invariant |
| Supplementary.SupersedeKeeps | bc_obps/compliance/service/supplementary_version_service/supercede_version_handler.py:45-112 | superseding keeps the superseded versions a prefix and charges the new version its whole excess |
| Supplementary.RunKeeps | bc_obps/compliance/signals/consumers.py:52-66 | over every run: a superseded prefix, deltas that are differences until manual handling, an obligation with the right fee exactly for live versions with a positive computed excess |
| Supplementary.ObligationExistsIff | bc_obps/compliance/service/compliance_report_version_service.py:69-97 | an obligation exists exactly for a live rule-based version that is first or after a superseded one with excess, or exceeds the previous one |
| Supplementary.NotInvoicedShowsComputed | bc_obps/compliance/service/compliance_report_version_service.py:156-210 | after every run a live version without an invoice shows exactly its computed excess as outstanding |
| Supplementary.InvoiceShowsComputed | bc_obps/compliance/service/compliance_report_version_service.py:178-186 | an unpaid invoice shows the computed excess from $100 a tonne on, and within 0.0001 t above $100/3 |
| Supplementary.LiveExcessIsLatestPlusDecreases | bc_obps/compliance/service/compliance_report_version_service.py:188-210 | computed excess over live versions sums to the latest excess before manual handling plus all decreases, and to it alone exactly when emissions never fell |
| Supplementary.FeeDrift | bc_obps/compliance/service/compliance_obligation_service.py:75 | recorded fees drift from the exact charge by at most half a cent per obligation |
| Supplementary.RunCharges | bc_obps/compliance/service/compliance_obligation_service.py:64-84 | after every run the recorded fees are (latest excess before manual handling + decreases) x rate within that drift |
| Supplementary.SubmissionRefusedIff | bc_obps/compliance/service/supplementary_version_service/supercede_version_handler.py:14-27 | the look-ups of obligations and credits never fail: a submission is refused exactly after a gap |
| SupplementaryOutcomes.SubmissionGapIff | bc_obps/compliance/service/supplementary_version_service/service.py:72-104 | an accepted submission gets no version exactly when only credited emissions changed, the previous version is neither manual nor replaceable, and no credit handler applies |
| Supplementary.GapStays | bc_obps/compliance/service/supplementary_version_service/service.py:48-65 | after a gap no submission adds a version any more |
| Supplementary.SmallCreditsLeaveGap | bc_obps/compliance/service/supplementary_version_service/service.py:84-104 | 0.5 t of credits followed by 0.7 t leaves a gap |
| SupplementaryOutcomes.SubmissionSupersedesIff | bc_obps/compliance/service/supplementary_version_service/supercede_version_handler.py:45-59 | the latest version is superseded exactly when all earlier ones are, it has no manual handling, and its obligation is pending and uninvoiced or its credits, a tonne at least, were not requested |
| SupplementaryOutcomes.SubmissionOutcome | bc_obps/compliance/service/supplementary_version_service/service.py:43-104 | one version is added with the summary submitted, charged its whole excess if first or superseding, nothing under manual handling, and else the increase; only the previous version may change, and only as stated |
| SupplementaryOutcomes.CreditsAfterSubmission | bc_obps/compliance/service/supplementary_version_service/increased_credit_handler.py:41-86 | when only credits change: who keeps, loses and gets a credit record, by the status of the previous one |
| SupplementaryOutcomes.OwnCreditsAfterSubmission | bc_obps/compliance/service/supplementary_version_service/supercede_version_handler.py:106-110 | a first or superseding version has credits exactly from a tonne on |
| SupplementaryOutcomes.BindingKept | bc_obps/compliance/service/supplementary_version_service/supercede_version_handler.py:14-59 | after an invoice, or a request for or decision on credits, no step supersedes a version or takes a record from it |
| SupplementaryOutcomes.BindingRunKept | bc_obps/compliance/service/supplementary_version_service/service.py:43-104 | nor does a run during which that stays so |
| SupplementaryOutcomes.InvoicedRunKept | bc_obps/compliance/service/elicensing/elicensing_obligation_service.py:144-152 | over every run an invoiced version stays live and charged |
| SupplementaryOutcomes.InvoiceBalanceShown | bc_obps/compliance/service/compliance_report_version_service.py:166-186 | the balance shown is the invoice's to the nearest 0.0001 t, and 0 for a missing or negative balance, without rate or obligation |
| FacilityReports.ReportTables.SetActivitiesForFacilityReport | bc_obps/service/facility_report_service.py:105-122 | activities become the payload; report activities, raw rows and the facility's allocations go as one, only if some activity goes |
| FacilityReports.ReportTables.AddActivitiesToFacilityReport | bc_obps/service/facility_report_service.py:98-103 | activities only grow |
| FacilityReports.ReportTables.PruneReportProducts | bc_obps/service/facility_report_service.py:124-142 | unregulated products go with their allocations, though the explicit deletion finds none |
| FacilityReports.ReportTables.SaveOpenFacilities | bc_obps/service/report_service.py:219-231 | the loop over uncompleted facilities equals one simultaneous update |
| FacilityReports.ReportTables.SaveReportOperation | bc_obps/service/report_service.py:189-246 | the save of either kind of operation, refused and undone unless a non-linear one has one facility report |
| FacilityReports.SaveKeepsConsistent | bc_obps/service/report_service.py:189-246 | raw rows stay within report activities, those within the facility's activities, allocations on live products |
| FacilityReports.SingleFacilitySave | bc_obps/service/report_service.py:204-244 | non-linear: the report says what the payload says; activities equal the payload, other rows gone, allocations kept only if no activity went and the product is live |
| FacilityReports.LinearSave | bc_obps/service/report_service.py:204-231 | linear: the report says what the payload says; completed facilities untouched, open ones only gain activities and keep exactly their regulated products |
| FacilityReports.SaveRefusedIff | bc_obps/service/report_service.py:219-233 | a save is refused exactly for a non-linear operation without one facility report |
| FacilityReports.SaveIdempotent | bc_obps/service/report_service.py:189-246 | saving the same data again changes nothing |
| FacilityReports.RawRowsPrunedIff | bc_obps/service/facility_report_service.py:112-122 | stray raw rows are pruned exactly when some report activity is |
| Reconcile.ChildTable.CreateOrUpdate | bc_obps/service/data_access_service/partner_operator_service.py:7-15 | update or create looks among live rows only; a named archived row is refused |
| Reconcile.ChildTable.UpsertChildren | bc_obps/service/operator_service.py:58-79 | the upsert loops: all entries put, then every other live row archived, all or nothing |
| Reconcile.PutAllEffect | bc_obps/service/operator_service.py:71-75 | the entries change exactly the rows they denote, last entry wins; refused exactly when an archived row is named |
| Reconcile.NewRowsDistinct | bc_obps/service/operator_service.py:71-75 | new entries get rows of their own |
| Reconcile.UpsertReconciles | bc_obps/service/operation_service.py:346-394 | live rows become exactly those denoted, dropped ones are archived once, others stay |
| Reconcile.UpsertAgain | bc_obps/service/operator_service.py:81-115 | sending the payload again under the given keys changes nothing |
| Reconcile.DistinctCount | bc_obps/service/facility_service.py:116-118 | the comparison of lengths finds exactly the lists with a repeated number |
| Reconcile.WellTable.AddWells | bc_obps/service/facility_service.py:125-133 | the loop inserts all new numbers, or is refused exactly when one is taken |
| Reconcile.WellTable.ArchiveWells | bc_obps/service/facility_service.py:135-144 | the loop archives exactly the given numbers |
| Reconcile.WellTable.HandleWellNumbers | bc_obps/service/facility_service.py:92-144 | duplicates and taken numbers are refused and change nothing; otherwise the update below |
| Reconcile.UpdateWellsReconciles | bc_obps/service/facility_service.py:109-144 | live numbers become exactly the payload, dropped ones archived, other facilities untouched, idempotent; when refused, exactly |
| FormSchema.SchemaBuilder.HandleMethodologies | bc_obps/service/form_builder_service.py:27-95 | enum and branches of one gas are filled in aligned with the elements, "Not Applicable" last if flagged |
| FormSchema.SchemaBuilder.HandleGasTypes | bc_obps/service/form_builder_service.py:98-191 | gas enum and options are aligned and finished; it fails exactly when a gas has no element, never for a missing methodology |
| FormSchema.OneSnapshotAlwaysFound | bc_obps/service/form_builder_service.py:117-154 | with both queries on one snapshot neither "no configuration found" branch is reached |
| FormSchema.ChoicesExact | bc_obps/service/form_builder_service.py:108-191 | the methodologies offered for a gas are exactly those of its valid elements, plus "Not Applicable" iff flagged |
| FormSchema.EveryGasOfferedIff | bc_obps/service/form_builder_service.py:262-272 | distinct-by-name offers every valid gas exactly when no two share a name |
| FormSchema.BranchesAlignedIff | bc_obps/service/form_builder_service.py:47-95 | branch k is about methodology k exactly when no custom schema, or else no reporting field of the element, redefines that property; "Not Applicable" always is |
| FormSchema.FieldPropertiesExact | bc_obps/service/form_builder_service.py:75-82 | a branch asks for exactly the reporting fields, display title before name, last field of a slug wins |
| FormSchema.BranchAsksForItsElement | bc_obps/service/form_builder_service.py:42-84 | with one element for each gas and methodology, branch k asks for exactly the custom schema or the reporting fields of element k |
| FormSchema.BranchesInOrder | bc_obps/service/form_builder_service.py:130-136 | each element has one branch, and branches come in the order in which the elements were fetched |
| FormSchema.BuildOutcome | bc_obps/service/form_builder_service.py:194-290 | a schema is built exactly if there is one and every gas has an element; it has the fuels iff flagged and one option per gas in order |
| FormSchema.BuildAsksForElements | bc_obps/service/form_builder_service.py:98-191 | every fetched element of a gas has a branch of the built schema that asks for exactly what it says |
| FormSchema.FormBuilder.BuildSourceTypeSchema | bc_obps/service/form_builder_service.py:237-290 | a call is served from the cache or built and stored; failures are not stored |
| FormSchema.CacheKeyInjective | bc_obps/service/form_builder_service.py:244 | the key determines config, activity and source type |
| FormSchema.CacheHoldsFirst | bc_obps/service/form_builder_service.py:243-248 | after any calls the cache holds what the first call of each buildable request built, and nothing else |
| FormSchema.AnsweredAfreshIff | bc_obps/service/form_builder_service.py:237-290 | a call is answered as without the cache exactly when the first call had the same flag, or it makes no difference |
| FormSchema.CacheTransparentIff | bc_obps/service/form_builder_service.py:237-290 | the cache is transparent over a run exactly when no two calls ask for one schema with different flags |
| FormSchema.CacheShowsOtherFacility | bc_obps/service/form_builder_service.py:330-336 | two facilities of one activity, one a small aggregate: the second form offers what only the first should |
| FormSchema.CulledTransparent | bc_obps/bc_obps/settings.py:247-252 | when the cache may drop entries at any time, calls that agree on the flag are still answered afresh |
| Naming.StampedSplits | bc_obps/bc_obps/storage_backends.py:19-26 | a stamped name splits into the unstamped stem, the stamp and the same extension |
| Naming.ExtensionAtIff | bc_obps/bc_obps/storage_backends.py:19 | the extension starts at the last dot of the last component that has something but dots before it |
| Naming.NoExtensionIff | bc_obps/bc_obps/storage_backends.py:19 | and there is none if there is no such dot |
| Naming.UnstampedExact | bc_obps/bc_obps/storage_backends.py:22-24 | exactly stems with "_20" and twelve digits at the end, or before a final newline, count as stamped |
| Naming.RestampAbsorbsIff | bc_obps/bc_obps/storage_backends.py:22-26 | stamping again absorbs the earlier stamp exactly when it is one of 2000-2099 |
| Naming.DuplicationsAbsorbed | bc_obps/bc_obps/storage_backends.py:12-26 | any number of duplications leaves the last stamp only |
| Naming.DuplicatedLength | bc_obps/bc_obps/storage_backends.py:22-26 | they add 15 characters at most, and none to a name with a stamp |
| Naming.CleanBucket.DuplicateFile | bc_obps/bc_obps/storage_backends.py:120-136 | only clean files are copied, under the stamped name, never over an existing one |
| Naming.ParseObligationRoundTrip | bc_obps/compliance/service/compliance_obligation_service.py:102-132 | an obligation id parses back to its BORO id, report and version |
| Naming.ObligationIdExample | bc_obps/compliance/service/compliance_obligation_service.py:110 | one id written out |
| Naming.ObligationIdInjective | bc_obps/compliance/service/compliance_obligation_service.py:125-132 | distinct keys have distinct obligation ids |
| Naming.ObligationIdFits | bc_obps/compliance/models/compliance_obligation.py:46-49 | it fits 30 characters exactly when report and version share at most 21 digits |
| RegistrationProofs.ReplaceKeeps | bc_obps/service/document_service.py:19-35 | replacing a document always succeeds and leaves exactly the new one live |
| RegistrationProofs.ReplaceTouchesOne | bc_obps/service/document_service.py:29-35 | every other document, archived predecessors included, stays |
| RegistrationProofs.ArchiveKeeps | bc_obps/service/document_service.py:37-54 | archiving or deleting always succeeds and leaves none live |
| RegistrationProofs.ArchiveTouchesOne | bc_obps/service/document_service.py:46-54 | the live document is archived exactly when the operation is registered, gone otherwise, and no other changes |
| RegistrationProofs.DeleteFacilitiesExact | bc_obps/service/facility_designated_operation_timeline_service.py:63-70 | deleting an operation's facilities is all or nothing, refused exactly when one was designated elsewhere too or has a snapshot |
| RegistrationProofs.LeavePurposeKeeps | bc_obps/service/operation_service.py:711-722 | leaving a purpose removes the detail, touches no other operation, keeps the one-facility rule |
| RegistrationProofs.UpdateKeeps | bc_obps/service/operation_service.py:396-503 | an update keeps every invariant and the one-facility rule, changes no other operation, never a registered type |
| RegistrationProofs.UpdateSettlesOperation | bc_obps/service/operation_service.py:411-494 | the operation ends up as asked; only a new purpose without activities or products drops them; status and BORO ID stay; a detail exactly for the opted-in purpose |
| RegistrationFrames.UpdateLeavesOthers | bc_obps/service/operation_service.py:396-503 | an update touches no document and no facility of another operation |
| RegistrationFrames.CreateLeavesOthers | bc_obps/service/operation_service.py:247-322 | nor does a creation |
| RegistrationProofs.CreateKeeps | bc_obps/service/operation_service.py:247-322 | creation keeps every invariant and touches no other operation |
| RegistrationProofs.NextBoroIdFresh | bc_obps/registration/models/operation.py:255-285 | a new BORO ID was never issued; with none of a later year it is the highest, and exists exactly until the year's four digits are used up |
| RegistrationProofs.NextBoroIdAfterLaterYear | bc_obps/registration/models/operation.py:266-282 | after an id of a later year only number 1 is ever tried |
| RegistrationProofs.IssueKeeps | bc_obps/service/operation_service.py:615-640 | a BORO ID goes only to a registered regulated operation without one, and changes nothing else about it |
| RegistrationRuns.StepKeeps | bc_obps/service/operation_service.py:247-503 | every step keeps the invariants, takes nothing back, and issues BORO IDs only through the issuing step |
| RegistrationRuns.MoveKeepsSingleIff | bc_obps/service/transfer_event_service.py:236-263 | moving facilities keeps the one-facility rule exactly when the destination is linear or ends with one at most |
| RegistrationRuns.StepSingleIff | bc_obps/service/facility_service.py:173-177 | all other steps keep that rule by themselves |
| RegistrationRuns.ImportOperationSettled | bc_obps/service/operation_service.py:713-735 | a new electricity import operation has a facility and no maps, diagrams, activities or products |
| RegistrationOutcomes.ChangePurposeSucceedsIff | bc_obps/service/operation_service.py:711-743 | leaving and entering a purpose fails exactly at an import operation without its one designation row or with a facility that cannot be removed |
| RegistrationOutcomes.UpdateSucceedsIff | bc_obps/service/operation_service.py:396-503 | an update goes through exactly when leaving the import purpose finds one designation row, a new type finds the operation unregistered, and either finds facilities without snapshot or other designation |
| RegistrationOutcomes.CreateSucceeds | bc_obps/service/operation_service.py:247-322 | a creation always goes through |
| RegistrationOutcomes.SnapshotForbidsChange | bc_obps/registration/models/facility_snapshot.py:17-22 | an operation with a facility that was part of a transfer cannot leave the import purpose or change its type |
| RegistrationOutcomes.TransferredImportStays | bc_obps/service/transfer_event_service.py:275-282 | a reached state: a new import operation can leave its purpose before it is transferred and cannot afterwards |
| RegistrationEffects.UpdateStoresDocuments | bc_obps/service/operation_service.py:444-487 | of each type in the payload that the purpose keeps there is exactly one live document, a new one; of the others what there was, less what the change of purpose takes |
| RegistrationEffects.CreateStoresDocuments | bc_obps/service/operation_service.py:279-310 | a new operation has exactly the documents of its payload |
| RegistrationEffects.CreateSettlesOperation | bc_obps/service/operation_service.py:254-268 | a new operation holds what its payload says, not started, with a detail exactly if opted in |
| RegistrationEffects.UpdateSettlesFacilities | bc_obps/service/operation_service.py:411-423 | facilities are cleared exactly on leaving the import purpose or changing type, and an import operation without any gets one |
| RegistrationEffects.CreateFacilities | bc_obps/service/operation_service.py:316-320 | a new operation has a facility exactly if it is an import operation |
| RegistrationEffects.AddFacilityOutcome | bc_obps/service/facility_service.py:171-187 | a facility is added exactly to a linear operation or one without any, with its designation |
| RegistrationEffects.FormDrafts | bc_obps/service/operation_service.py:333-344 | the form drafts a new operation and one not started, and leaves other statuses |
| RegistrationEffects.SubmitOutcome | bc_obps/service/operation_service.py:538-613 | a submission registers the operation exactly with purpose, facility, activities and one document of each kind (and the rest), and changes nothing else |
| RegistrationEffects.IssueSucceedsIff | bc_obps/service/operation_service.py:624-631 | an id is issued exactly to a registered operation without one, under one of the three regulated purposes, in a year with a number left |
| RegistrationEffects.IssueOutcome | bc_obps/registration/models/operation.py:264-285 | it is the first of its year if ids of later years exist, else the one after the highest, recorded with the operation and as issued |
| RegistrationEffects.IssueRefusals | bc_obps/service/operation_service.py:624-629 | a refusal gives the first reason that applies |
| RegistrationRuns.PurposeChangeArchivesIffRegistered | bc_obps/service/document_service.py:46-54 | a purpose change deletes no document of a registered operation and archives none of another |
| RegistrationRuns.CompleteHasBothDocuments | bc_obps/service/operation_service.py:570-580 | counting two documents of either type means one of each |
| RegistrationRuns.RunKeeps | bc_obps/service/operation_service.py:112-743 | over every run: invariants in every state; registered types and BORO IDs never change again |
| RegistrationRuns.RunSingleIff | bc_obps/service/facility_service.py:165-245 | the one-facility rule holds throughout a run exactly as long as no facility move breaks it |
| RegistrationService.RegistrationTables.CreateOrReplaceDocument | bc_obps/service/document_service.py:19-35 | the live document of the type is deleted and a new one stored |
| RegistrationService.RegistrationTables.ArchiveOrDeleteDocument | bc_obps/service/document_service.py:37-54 | archived once registered, deleted before |
| RegistrationService.RegistrationTables.DeleteFacilitiesByOperation | bc_obps/service/facility_designated_operation_timeline_service.py:63-70 | designations first, then facilities; one with another designation or a snapshot refuses |
| RegistrationService.RegistrationTables.AddFacility | bc_obps/service/facility_service.py:165-194 | the one-facility guard, the facility and its designation row |
| RegistrationService.RegistrationTables.HandleChangeOfPurpose | bc_obps/service/operation_service.py:700-743 | what the old purpose takes away, what the new one does, and what it leaves of the payload |
| RegistrationService.RegistrationTables.UpdateOperation | bc_obps/service/operation_service.py:396-503 | the whole update, undone on failure |
| RegistrationService.RegistrationTables.CreateOperation | bc_obps/service/operation_service.py:247-322 | the whole creation, undone on failure |
| RegistrationService.RegistrationTables.RegisterOperationInformation | bc_obps/service/operation_service.py:324-344 | one step of the state machine: create or update, then draft status for one not started |
| RegistrationService.RegistrationTables.SubmitRegistration | bc_obps/service/operation_service.py:112-135 | registered exactly when the information is complete |
| RegistrationService.RegistrationTables.GenerateBoroId | bc_obps/service/operation_service.py:615-640 | the checks in order, the next id, recorded on the operation and as issued |

## Left out

- Authorization, roles, row-level security, schemas and HTTP: an authorized caller is assumed in every step.
- Emails, malware scanning, eLicensing and the carbon registry: an invoice balance is an arbitrary optional
  amount; contacts, scans and opt-in answers are one flag of a submission.
- The contents of facility snapshots and the removal of contacts during transfers: no table of the transfer
  machine depends on them, and what a snapshot contains does depend on the order of processing. That a
  snapshot exists is part of the registration machine.
- Timeline rows without a start date: the services always write one.
- Deleting facilities (type and purpose changes) and `update_facility` are steps of the registration
  machine, not of the transfer machine, so the transfer runs speak of runs without them; the
  registration machine has the effect of a transfer as one step.
- What a user may edit on a facility beyond its operation, unique facility names, addresses and the
  address handling inside the parent and multiple operator upserts.
- Reconcile.UpsertReconciles: primary keys taken from a database sequence that lags behind explicitly named
  keys can collide; new keys here are always fresh.
- Reconcile.UpdateWellsReconciles: the conversion of the payload's strings to integers is not modelled.
- Supplementary.InvoiceShowsComputed: amounts are assumed small enough (28 significant digits) for Decimal arithmetic
  to be exact before quantizing; at larger amounts the quotient would be rounded twice.
- Supplementary.RunKeeps: the refunds and invoice adjustments of a decrease, the amounts of earned credits, and
  the later life of invoices and credits are arbitrary changes from outside; a report is taken to be
  submitted in the order of its versions.
- Penalties, interest and the amounts of earned credits: one-branch rules or not computed in the core.
- FacilityReports.SaveReportOperation: representative selection, names and the rows below a report activity
  (which the database deletes with it) are not modelled.
- The merging of an activity schema with its source types in `build_schema`.
- FormSchema.CacheTransparentIff: supposes that no entry is dropped, which the entry limit of the cache can
  bring about; `CulledTransparent` is what remains then.
- FormSchema.FormBuilder.BuildSourceTypeSchema: where the emissions block is placed is recorded as two flags,
  and the rest of the stored JSON schema as an opaque text.
- Naming.RestampAbsorbsIff: digits are the ASCII ones; a pattern digit of another script is not modelled.
- RegistrationProofs.UpdateKeeps: contacts, NAICS codes and multiple operators of the payload are left out (the last are
  in `Reconcile`).
