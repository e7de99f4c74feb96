# Verified models of the attention router

This project models, in Dafny, the parts of the attention router whose correctness rests on
several pieces of code holding together, and proves what they promise:

- **Meta delivery reconciliation** (`MetaTables`, `MetaLifecycle`, `MetaStatements`).
  Reconciliations, callback inbox and evidence are tables of rows under check constraints,
  unique keys, foreign keys and update guards. A statement is any insert, update or delete; it
  takes effect exactly when the guards and constraints accept it. The results are about every
  run of statements, and `MetaStatements` says column by column which statements are accepted.
- **Its recovery migration** (`AttemptRecovery`, `AttemptColumns`, `MetaBackfill`,
  `MetaOutcome`, `MetaCorrelation`, `MetaSettlement`, `MetaColumns`, `MetaRecovery`,
  `ShadowBackfill`). Loops that read row snapshots, spend reserved authority, link evidence and
  correlate inbox rows, and either finish or leave every table as it was. The condition under
  which each one finishes is stated by the tables it starts from, and `MetaOutcome` and
  `MetaSettlement` say by the same tables, row by row, what the two evidence procedures leave.
  `AttemptColumns` and `MetaColumns` write out every column and literal that these conditions
  read and these outcomes hold. `RecoverHistoricalEvidence` runs the two evidence procedures in
  the order of the migration.
- **The attention engine** (`AttentionScore`, `AttentionStore`, `AttentionColumns`,
  `AttentionRuns`, `AttentionHistory`). A weighted score over a history of rows that are
  created, refreshed, superseded, suppressed and acknowledged. Scores are exact millionths.
- **The SDK type generator** (`SdkTypes`, `SdkMeaning`). A compiler from JSON Schema nodes to
  Python and TypeScript types; emitted types and schemas have a meaning over JSON values that
  counts the references followed in a row, and the types mean exactly what was read.
- **The strict schema rewrite** (`StrictSchema`). A rewrite of linked dictionaries in place,
  proved against a function on schema trees.
- **The CI edit pipeline** (`TextScan`, `CiPatch`, `CiEdit`, `Base64`, `CiArtifact`,
  `CiContract`). Textual edits become a working copy, a patch, a validated proposal, an encoded
  artifact and a revalidated proposal.
- **Execution intents** (`IntentAuthority`, `IntentStatements`). Freezing, retirement, targets,
  and the bridge from scenario runs to the intent that authorizes them.
- **The trace tree** (`TraceTree`). A recursive visit over parent pointers that may dangle or
  run in circles.

`Common` and `JsonValues` hold shared vocabulary. Code that changes rows, dictionaries or lists
step by step is a class or a method with loops, proved against a function or a predicate on
values; lemmas about runs and transformations then use those. In the table modules a state of
the database is a value, so that a run is a sequence of states.

Facts the proofs brought out, where the code does less than its documentation or its shape
suggests, each with the exact condition:

- Ids of attention rows are random (`new_id`, attention_router/domain/models.py:13-14), yet the
  id breaks the tie between a superseded row and its successor, which bear one stamp. Of three
  ordinary snapshots the third leaves two active rows, and the unique index refuses it, exactly
  when the second id sorts below the first (`IdsBreakIndexIff`). A clock that goes back does the
  same; `ClockOrIdsBreakIndexIff` is the condition for any clock and any ids.
- An owner who suppresses or acknowledges an older row makes it the latest one, with the same
  effect on the next snapshot (`SuppressingOlderRowBreaksIndexIff`,
  `AcknowledgingOlderRowBreaksIndexIff`).
- An owner's suppression can end early: a return to an older snapshot, or an acknowledgement of
  an older row and the snapshot after it, makes the signal active again (`ReturnUnmutesIff`,
  `AcknowledgementUnmutesIff`).
- A score may rise by more than 0.15 to leave a cooldown, but behind a candidate no score can:
  candidates start at 0.82 and assessments end at 0.958 (`ScoreCeiling`, `NoTwoInARow`).
- The guard of the callback inbox lets a quarantined row without an error code be correlated,
  because its condition is then unknown and not false (`CorrelationAcceptedIff`).
- Anomaly ids that differ in whitespace only share a signal, and each gets an owner suggestion
  on it (`SecondCandidateIff`).
- A requeue audit row can be used again as soon as a different one was used in between
  (`RequeueAcceptedIff`), so two of them serve by turns in runs of any length
  (`AuditsTakeTurns`).
- Text that must match "exactly one region" may occur a second time, overlapping the first; a
  count of one excludes that exactly for texts of which no proper part is both start and end
  (`CountOneIsUniqueIff`).
- The strict rewrite copies the outermost dictionary only, so the schema passed in is rewritten
  below its own keys (`StrictJsonSchema`), unless all it enters there is settled already
  (`ArgumentUnchangedIff`).
- A trace whose ids repeat can send the visit round without end; it ends exactly when no path
  meets a span twice (`VisitEndsIff`).
- A retired execution intent accepts a target again (`TakesTargetIff`).

`dafny verify dfyconfig.toml` checks everything.

## Model

| member | source | states |
|---|---|---|
| `MetaLifecycle.MetaStore.Run` | alembic/versions/0030_meta_callback_release_gate_remediation.py:1244-1341 | a statement takes effect exactly when the row triggers permit it and every constraint holds of what it leaves; otherwise no table changes |
| `MetaLifecycle.AlwaysConsistent` | alembic/versions/0029_meta_callback_critical_remediation.py:47-53 | every state of every run of statements (inserts, deletes, rewritten keys and audit changes included) satisfies all checks, keys and foreign keys |
| `MetaLifecycle.ReconciliationStatement` | alembic/versions/0028_meta_callback_reconciliation_v2.py:129-154 | any permitted statement moves a reconciliation that stays only as both of its triggers allow |
| `MetaLifecycle.WindowsNeverChange` | alembic/versions/0028_meta_callback_reconciliation_v2.py:129-154 | over every run, outbox, provider, tenant and the three instants of a reconciliation are constant, and accepted < deadline < closure |
| `MetaLifecycle.TerminalIsFrozen` | alembic/versions/0028_meta_callback_reconciliation_v2.py:129-154 | a PASSED or FAILED reconciliation is the same row in every later state, and never quarantined |
| `MetaLifecycle.LeavingQuarantineIsAudited` | alembic/versions/0030_meta_callback_release_gate_remediation.py:1356-1403 | between a quarantined and a later active state lies a step that names an audit row authorizing exactly this requeue, with failures reset |
| `MetaLifecycle.TerminalOnlyPastRequeue` | alembic/versions/0030_meta_callback_release_gate_remediation.py:1356-1403 | every path from QUARANTINED to PASSED or FAILED goes through such an audited return to ACTIVE |
| `MetaLifecycle.RequeueAuditSticks` | alembic/versions/0030_meta_callback_release_gate_remediation.py:1356-1403 | no step but an audited requeue touches the requeue audit id |
| `MetaLifecycle.ConsecutiveRequeuesDiffer` | alembic/versions/0030_meta_callback_release_gate_remediation.py:1356-1403 | two consecutive requeues carry different audit ids |
| `MetaLifecycle.RequeueAcceptedIff` | alembic/versions/0030_meta_callback_release_gate_remediation.py:1356-1403 | a requeue of a quarantined reconciliation is accepted exactly when its audit row exists, authorizes it, and is not the one the row already carries |
| `MetaLifecycle.QuarantineAccepted` | alembic/versions/0030_meta_callback_release_gate_remediation.py:1356-1403 | quarantining a pending, active reconciliation is accepted in every consistent state |
| `MetaLifecycle.AuditsTakeTurns` | alembic/versions/0030_meta_callback_release_gate_remediation.py:1372-1396 | so two authorizing audit rows serve alternately: from any consistent tables, for every n, there is a run of n requeues that use the two by turns |
| `MetaLifecycle.LinkSurvivesStatement` | alembic/versions/0030_meta_callback_release_gate_remediation.py:1245-1341 | no single statement breaks a correlated inbox row's link to its evidence and its reconciliation |
| `MetaLifecycle.CorrelationAcceptedIff` | alembic/versions/0030_meta_callback_release_gate_remediation.py:1292-1330 | a quarantined row is correlated exactly when reconciliation, evidence and audit row vouch for it and its error code is the one for a missing reconciliation, or null, which the negated condition of the guard lets through |
| `MetaLifecycle.CorrelationLinks` | alembic/versions/0030_meta_callback_release_gate_remediation.py:1296-1330 | a row that goes from QUARANTINED to CORRELATED is linked, by that statement, to a reconciliation of its provider id and evidence of its key |
| `MetaLifecycle.LinkSurvivesRun` | alembic/versions/0028_meta_callback_reconciliation_v2.py:117-154 | the link and the inbox row are constant over every run |
| `MetaLifecycle.CorrelatedStaysLinked` | alembic/versions/0030_meta_callback_release_gate_remediation.py:1245-1341 | a row correlated out of quarantine has, in every later state, its unchanged row, a reconciliation with its provider id and an evidence row with its key |
| `MetaStatements.ReconciliationUpdateAcceptedIff` | alembic/versions/0030_meta_callback_release_gate_remediation.py:1356-1403 | an update of a reconciliation is accepted exactly when identity and windows stay, a terminal row stays as it is, the check columns agree, and a quarantined row is left alone or reset with an audit row that names it and is not the one it carries; every column written out |
| `MetaStatements.ReconciliationInsertAcceptedIff` | alembic/versions/0028_meta_callback_reconciliation_v2.py:33-79 | an insert exactly when id, provider id and outbox message are new, the instants are in order and the check columns agree |
| `MetaStatements.ReconciliationDeleteAcceptedIff` | alembic/versions/0028_meta_callback_reconciliation_v2.py:89-95 | a delete exactly when no evidence and no inbox row names it |
| `MetaStatements.InboxUpdateAcceptedIff` | alembic/versions/0030_meta_callback_release_gate_remediation.py:1245-1341 | an update of an inbox row exactly when the callback stays, a correlated row stays as it is, a quarantined one is correlated with all that vouches for it or reset with its audit row, nothing else touches the requeue audit id, and the check, claim and key columns agree; every column written out |
| `MetaStatements.InboxRequeueAcceptedIff` | alembic/versions/0030_meta_callback_release_gate_remediation.py:1316-1338 | the reset of a quarantined inbox row, with no attempts counted, is accepted exactly when the audit row it names is there, is not the one the row carries and says in all five columns what it must |
| `MetaStatements.InboxInsertAcceptedIff` | alembic/versions/0029_meta_callback_critical_remediation.py:70-118 | an insert of an inbox row exactly when its id, callback key and claim token are new and the check and key columns agree |
| `MetaStatements.InboxDeleteAcceptedIff` | alembic/versions/0029_meta_callback_critical_remediation.py:131-137 | a delete exactly when no evidence is linked to the row |
| `MetaStatements.EvidenceInsertAcceptedIff` | alembic/versions/0028_meta_callback_reconciliation_v2.py:86-111 | evidence is accepted exactly once for a key of a reconciliation that is there, and once for an inbox row that is there |
| `MetaStatements.AuditChangeAcceptedIff` | alembic/versions/0030_meta_callback_release_gate_remediation.py:1206-1213 | audit rows come and change freely, and go exactly when no requeue names them |
| `MetaBackfill.KeysTellEvidenceApart` | alembic/versions/0028_meta_callback_reconciliation_v2.py:48-110 | two evidence rows never have the same provider id and deduplication key (three unique constraints together) |
| `MetaBackfill.SetAsideKeepsCurrent` | alembic/versions/0030_meta_callback_release_gate_remediation.py:312-401 | setting one evidence row aside leaves the row snapshots taken for all the others current |
| `MetaRecovery.MetaDatabase.QuarantineAmbiguity` | alembic/versions/0030_meta_callback_release_gate_remediation.py:312-401 | sets the reconciliation and the inbox row aside with an audit exactly when both are open and the inbox row is unlinked; otherwise changes nothing |
| `MetaRecovery.MetaDatabase.ScanEvidence` | alembic/versions/0030_meta_callback_release_gate_remediation.py:403-486 | the first loop finishes exactly when every row is in scope and every ambiguous one can be set aside; then every row is prepared from a current snapshot or left ambiguous |
| `MetaBackfill.LinkKeepsOthers` | alembic/versions/0030_meta_callback_release_gate_remediation.py:496-535 | linking one evidence row leaves the other snapshots current and the other links alone |
| `MetaBackfill.LinkKeepsConsistent` | alembic/versions/0030_meta_callback_release_gate_remediation.py:496-535 | a link that the database accepts keeps every constraint and yields a correlated or still parked row |
| `MetaBackfill.LinkDecides` | alembic/versions/0030_meta_callback_release_gate_remediation.py:496-529 | a link is refused for a taken key exactly when the key was taken at the start or is wanted by an earlier row |
| `MetaRecovery.MetaDatabase.LinkEvidence` | alembic/versions/0030_meta_callback_release_gate_remediation.py:496-535 | the second loop finishes exactly when the keys it writes are free, and then has linked all that was prepared |
| `MetaBackfill.ScanDecides` | alembic/versions/0030_meta_callback_release_gate_remediation.py:415-486 | whether the scan passes a row can be read off the tables of the start, although earlier rows changed some of them |
| `MetaRecovery.MetaDatabase.BackfillEvidence` | alembic/versions/0030_meta_callback_release_gate_remediation.py:403-535 | finishes exactly when the tables are clear for it; a block changes nothing; after it every table is the outcome that the tables of the start call for, column by column, and every evidence row is linked, parked or left ambiguous |
| `MetaOutcome.OutcomeIsUnique` | alembic/versions/0030_meta_callback_release_gate_remediation.py:312-535 | the outcome, said row by row for all four tables, is one at most |
| `MetaOutcome.OutcomeReached` | alembic/versions/0030_meta_callback_release_gate_remediation.py:403-535 | what the two loops leave, each said by what it did to its rows in its order, is that outcome |
| `MetaOutcome.ExactSetAside` | alembic/versions/0030_meta_callback_release_gate_remediation.py:312-401 | setting a row aside changes its reconciliation, its inbox row and one audit row, in the state the scan reached, to what the outcome says of them |
| `MetaOutcome.LinkExactAdvances` | alembic/versions/0030_meta_callback_release_gate_remediation.py:496-535 | a link writes one evidence row and one inbox row that no earlier link wrote |
| `MetaColumns.BackfillClearIff` | alembic/versions/0030_meta_callback_release_gate_remediation.py:403-529 | the backfill finishes exactly when every unlinked evidence row has the outbox message of an exact attempt, its inbox row is linked to nothing and fits or can be set aside, and the ids to be minted are free and apart; every column and literal written out |
| `MetaColumns.OutcomeColumns` | alembic/versions/0030_meta_callback_release_gate_remediation.py:312-535 | every column that a finished backfill writes: the linked evidence, the inbox rows made, correlated or set aside, the reconciliations set aside and their audit rows; all other rows are as they were |
| `MetaColumns.ClearIff` | alembic/versions/0030_meta_callback_release_gate_remediation.py:538-632 | the recovery finishes exactly when no valid parked callback is about a terminal reconciliation, each waiting row has an exact attempt and only evidence of its own, and the ids to be minted are free and apart; every column and literal written out |
| `MetaColumns.SettlementColumns` | alembic/versions/0030_meta_callback_release_gate_remediation.py:640-755 | every column that a finished recovery writes: the correlated inbox rows, the due times moved up, the evidence linked or made, admissible when received by the deadline, and the audit rows; all other rows are as they were |
| `MetaColumns.NewEvidence` | alembic/versions/0030_meta_callback_release_gate_remediation.py:649-676 | an evidence row that the recovery adds has key, event and receipt of its inbox row, is created at the acceptance of its reconciliation, and is admissible exactly when the callback was received by the deadline |
| `MetaColumns.NewEvidenceOfBoth` | alembic/versions/0030_meta_callback_release_gate_remediation.py:312-755 | the same over both procedures, with the inbox row and the reconciliation as they were at the start |
| `MetaCorrelation.KeysTellInboxApart` | alembic/versions/0030_meta_callback_release_gate_remediation.py:570-632 | two parked inbox rows never compete for the same evidence row |
| `MetaCorrelation.CorrelateKeepsReady` | alembic/versions/0030_meta_callback_release_gate_remediation.py:640-755 | correlating one inbox row leaves the matches found for the others current |
| `MetaCorrelation.CorrelateKeepsConsistent` | alembic/versions/0030_meta_callback_release_gate_remediation.py:640-755 | correlating keeps every constraint |
| `MetaRecovery.MetaDatabase.MatchQuarantined` | alembic/versions/0030_meta_callback_release_gate_remediation.py:601-632 | finds for every parked row its one exact match, or blocks because some row has none |
| `MetaRecovery.MetaDatabase.CorrelateMatches` | alembic/versions/0030_meta_callback_release_gate_remediation.py:640-755 | finishes exactly when the keys it writes are free |
| `MetaRecovery.MetaDatabase.RecoverQuarantined` | alembic/versions/0030_meta_callback_release_gate_remediation.py:538-755 | finishes exactly when there is no conflict, one exact match for each parked row and free keys; then every table is the outcome that the tables of the start call for, column by column; a block changes nothing |
| `MetaSettlement.SettlementIsUnique` | alembic/versions/0030_meta_callback_release_gate_remediation.py:538-755 | that outcome, said row by row for all four tables, is one at most |
| `MetaSettlement.SettlementReached` | alembic/versions/0030_meta_callback_release_gate_remediation.py:640-755 | what the second loop leaves, said by what it wrote in its order, is that outcome |
| `MetaSettlement.WriteExactAdvances` | alembic/versions/0030_meta_callback_release_gate_remediation.py:640-755 | writing a match writes one inbox, one reconciliation, one evidence and one audit row, none but the reconciliation written before, and moving a due time up twice is moving it up once |
| `MetaSettlement.WritesApart` | alembic/versions/0030_meta_callback_release_gate_remediation.py:640-755 | two matches never write the same evidence row |
| `MetaRecovery.NothingLeftToRecover` | alembic/versions/0030_meta_callback_release_gate_remediation.py:538-755 | after it no parked inbox row with a reconciliation of its provider id is left |
| `MetaRecovery.SettledByBoth` | alembic/versions/0030_meta_callback_release_gate_remediation.py:312-755 | what the backfill linked, parked or set aside is correlated or ambiguous after the recovery |
| `MetaRecovery.MetaDatabase.RecoverHistoricalEvidence` | alembic/versions/0030_meta_callback_release_gate_remediation.py:312-755 | both procedures finish exactly when the tables of the start are clear for the first and the outcome it has from them is clear for the second, and leave the outcome of the second behind that of the first, column by column; each evidence row that is new has the columns of an inbox row and a reconciliation of the start, and is admissible exactly when the callback was received by the deadline; all or nothing; each evidence row that started unlinked ends either linked to an inbox row of its provider id, key and event that is correlated to its own reconciliation, or unlinked with that reconciliation quarantined as ambiguous; no inbox row serves two |
| `MetaRecovery.ClearAfterFirst` | alembic/versions/0030_meta_callback_release_gate_remediation.py:312-755 | the condition for both, although it speaks of the tables between the two, is one on the tables of the start |
| `MetaRecovery.BothOutcomesAreUnique` | alembic/versions/0030_meta_callback_release_gate_remediation.py:312-755 | the tables of the start decide every row of every table after both |
| `MetaRecovery.RecoveredStaysLinked` | alembic/versions/0030_meta_callback_release_gate_remediation.py:1245-1341 | what the recovery correlates stays linked in every later run of the live tables |
| `AttemptRecovery.SpendOne` | alembic/versions/0030_meta_callback_release_gate_remediation.py:247-285 | spending a row that still looks reserved spends one that nothing else spent |
| `AttemptRecovery.RecoverOne` | alembic/versions/0030_meta_callback_release_gate_remediation.py:65-309 | one more round of the loop keeps all that a finished recovery promises |
| `AttemptRecovery.AttemptDatabase.FindAcceptance` | alembic/versions/0030_meta_callback_release_gate_remediation.py:88-112 | yields the instant of the acceptance exactly when there is one and only one and it is not too early |
| `AttemptRecovery.AttemptDatabase.FindGraph` | alembic/versions/0030_meta_callback_release_gate_remediation.py:114-168 | yields the authority graph exactly when the join has one row |
| `AttemptRecovery.AttemptDatabase.RecoverAttempt` | alembic/versions/0030_meta_callback_release_gate_remediation.py:65-309 | spends the graph and opens the reconciliation exactly when nothing blocks this attempt (`AttemptColumns.ClearsIff`); otherwise writes nothing |
| `AttemptRecovery.ClearsAfterIff` | alembic/versions/0030_meta_callback_release_gate_remediation.py:65-309 | after one attempt was recovered another one clears exactly when it cleared before and shares no spent row, provider id or reconciliation id with it |
| `AttemptRecovery.FeasibleStep` | alembic/versions/0030_meta_callback_release_gate_remediation.py:65-309 | recovering the first of several attempts leaves the rest feasible exactly when all of them were |
| `AttemptRecovery.AttemptDatabase.RecoverAttempts` | alembic/versions/0030_meta_callback_release_gate_remediation.py:43-309 | finishes exactly when every orphan clears on its own and no two compete; otherwise nothing is changed; every orphan is recovered, with the columns of `AttemptColumns.SpentColumns` |
| `AttemptRecovery.NothingIsSpentTwice` | alembic/versions/0030_meta_callback_release_gate_remediation.py:247-285 | no budget, lease, authorization, consumption or agent intent is spent by two attempts |
| `AttemptRecovery.BudgetsConserved` | alembic/versions/0019_platform_evolution_wave_d.py:89-94 | each budget keeps reserved + consumed, and the capacity check still holds |
| `AttemptRecovery.RecoveredOnce` | alembic/versions/0030_meta_callback_release_gate_remediation.py:286-309 | each recovered attempt has exactly one reconciliation, with its provider id and the fixed windows |
| `AttemptRecovery.OrphansReconciledOnce` | alembic/versions/0030_meta_callback_release_gate_remediation.py:43-309 | every orphan ends with exactly one reconciliation |
| `AttemptRecovery.NoOrphanIsLeft` | alembic/versions/0030_meta_callback_release_gate_remediation.py:43-309 | no accepted attempt is left without a reconciliation |
| `AttemptColumns.SpentColumns` | alembic/versions/0030_meta_callback_release_gate_remediation.py:247-309 | every column that a recovered attempt writes: agent intent, consumption, lease, budget and both authorizations as they were but for the columns that say they are spent and since when, and each column of the reconciliation opened, with its windows in seconds |
| `AttemptColumns.NothingElseIsWritten` | alembic/versions/0030_meta_callback_release_gate_remediation.py:247-309 | a row that changed belongs to a recovered attempt, and only reconciliations are added |
| `AttemptColumns.AwaitedIsReconciled` | alembic/versions/0030_meta_callback_release_gate_remediation.py:43-58 | every attempt that awaits delivery at the provider has a reconciliation afterwards, and those recovered are those that had none |
| `AttemptColumns.ClearsIff` | alembic/versions/0030_meta_callback_release_gate_remediation.py:60-245 | an attempt can be recovered exactly when it was made once, accepted once and in time under a provider id nobody else has, its authority join has one row, and all ten rows of the graph are what their ids and the frozen scope call for; every column and literal written out |
| `ShadowBackfill.ShadowDatabase.Backfill` | alembic/versions/0030_meta_callback_release_gate_remediation.py:972-1039 | finishes exactly when rows and events of one identity agree and the ids to be minted are free and unlike each other; then the table holds what it held and exactly one event for each identity that had none, made from its first row; a block changes nothing |
| `ShadowBackfill.NextInserts` | alembic/versions/0030_meta_callback_release_gate_remediation.py:1003-1020 | whether a row needs an event can be read off the tables of the start, although earlier rows inserted some |
| `ShadowBackfill.TakenIffUnfit` | alembic/versions/0030_meta_callback_release_gate_remediation.py:1021-1039 | an insert meets a taken key exactly when the ids do not fit the tables of the start |
| `ShadowBackfill.FreshIdsFit` | alembic/versions/0030_meta_callback_release_gate_remediation.py:1021-1039 | ids that are new and tell audit rows apart fit in every order of the rows, so that with them the backfill finishes exactly when the rows agree |
| `ShadowBackfill.ProgressInserted` | alembic/versions/0030_meta_callback_release_gate_remediation.py:1003-1039 | inserting an event for a row keeps every event and every row seen so far represented once |
| `ShadowBackfill.MismatchDisagrees` | alembic/versions/0030_meta_callback_release_gate_remediation.py:1003-1020 | a hash that differs from an event of the same identity is a disagreement of the rows at the start |
| `ShadowBackfill.ProgressAgrees` | alembic/versions/0030_meta_callback_release_gate_remediation.py:972-1039 | when the loop ends, the rows agreed |
| `ShadowBackfill.AgreeableIff` | alembic/versions/0030_meta_callback_release_gate_remediation.py:972-1020 | nothing disagrees exactly when every shadow message has an external id of 1 to 180 characters and messages and events of one tenant and external id have one hash; every column and literal written out |
| `ShadowBackfill.BackfillColumns` | alembic/versions/0030_meta_callback_release_gate_remediation.py:1021-1039 | after a finished backfill every message has one event with its hash, and each new event has the columns of a message that had none, its correlation id or the fallback included |
| `AttentionScore.ReasonCodes` | attention_router/application/attention.py:99-116 | collects the codes of exactly the thresholds that are met |
| `AttentionScore.QuietStateStaysBelowSuggestion` | attention_router/application/attention.py:81-96 | in every state but the two owner states no confidence, deadline or novelty reaches the suggestion threshold |
| `AttentionScore.OnlyOwnerStatesReachSuggestion` | attention_router/application/attention.py:217-263 | the states in which some confidence, deadline, novelty and ownership reach the suggestion threshold are exactly the two owner states |
| `AttentionScore.OwnerStateReachesSuggestion` | attention_router/application/attention.py:217-263 | in the best case both owner states reach it during the day after the deadline |
| `AttentionScore.MissingStepCandidate` | attention_router/application/attention.py:568-696 | a missing step is a candidate only when new, at most six hours old, and about a relationship or a resource |
| `AttentionStore.RequireOwner` | attention_router/application/attention.py:128-154 | succeeds exactly when the actor is the tenant's only owner |
| `AttentionStore.Store.LatestAssessment` | attention_router/application/attention.py:157-174 | finds the row updated last, and of several the one with the greatest id |
| `AttentionStore.Store.Persist` | attention_router/application/attention.py:332-475 | refreshes the row of this snapshot if there is one, else supersedes the latest row and inserts a new one; errors leave the rows alone |
| `AttentionStore.Store.AssessObligation` | attention_router/application/attention.py:478-565 | answers with the row its sources call for, or with the first error |
| `AttentionStore.Store.AssessMissingStep` | attention_router/application/attention.py:579-695 | answers with the row its sources call for, or with the first error |
| `AttentionStore.Store.Suppress` | attention_router/application/attention.py:698-745 | succeeds exactly when the row is not superseded, the actor is the owner and the window is at most thirty days; writes owner, reason, reference, end, status, class, reasons and stamp of that row, each from its own argument, and nothing else; says which refusal is for what |
| `AttentionStore.Store.Acknowledge` | attention_router/application/attention.py:748-781 | an acknowledged row is returned as it is; any other exactly when it is not superseded and the actor is the owner; writes owner, reference, status, reasons and stamps of that row and nothing else |
| `AttentionColumns.WordsAreFound` | attention_router/application/attention.py:119-125 | the words of a text are the stretches without whitespace, in order, none missed |
| `AttentionColumns.ScoreIff` | attention_router/application/attention.py:81-88 | the score is the mean of the components by the ten weights, each held in its bounds, rounded half to even |
| `AttentionColumns.CodesIff` | attention_router/application/attention.py:99-116 | which component earns which reason code from which threshold on |
| `AttentionColumns.ObligationAssessedIff` | attention_router/application/attention.py:478-565 | when an obligation can be assessed, what it is refused for, and every column handed to the store |
| `AttentionColumns.AnomalyAssessedIff` | attention_router/application/attention.py:579-695 | when a missing step can be assessed, and every column handed to the store |
| `AttentionColumns.RefreshedColumns` | attention_router/application/attention.py:266-329 | every column of a refreshed row: class, status, reasons and stamp by its suppression and the owner's controls; an acknowledged row stays |
| `AttentionColumns.FreshColumns` | attention_router/application/attention.py:377-475 | every column of a new row: what it takes from its source, from its score, and, when suppressed or cooling down, from the row before it |
| `AttentionColumns.FreshStepColumns` | attention_router/application/attention.py:364-475 | a fresh assessment supersedes the row updated last on its signal, if active, and leaves all others alone |
| `AttentionColumns.SuggestedIff` | attention_router/application/attention.py:784-851 | a row yields a suggestion exactly when it is an active, unmuted candidate that is not secret and whose obligation or anomaly is still as it says, with the columns of that row |
| `AttentionRuns.AnsweredCallIsNext` | attention_router/application/attention.py:332-781 | whatever the store answers to an assessment is one step of the lives below |
| `AttentionRuns.Call` | attention_router/application/attention.py:478-781 | a call of any of the four operations takes the store from a state of a life to a next one |
| `AttentionRuns.AlwaysKeepsFacts` | attention_router/application/attention.py:332-475 | over any stretch of a life no row is lost, and signal, source state, score class and predecessor of a row never change |
| `AttentionRuns.ScoreCeiling` | attention_router/application/attention.py:81-88 | whatever the sources hold, no assessment scores above 0.958 |
| `AttentionRuns.AlwaysSound` | attention_router/application/attention.py:283-329 | in every reachable row the effective class is at most the score class |
| `AttentionRuns.StateIsDecodable` | attention_router/application/attention.py:532-538 | the state before the first colon of a source state can be read back |
| `AttentionRuns.SuggestedObligationCallsForOwner` | attention_router/application/attention.py:784-851 | whenever a suggestion is returned for an obligation, that obligation is now PARTIALLY_SATISFIED or UNCONFIRMED_AFTER_DUE, whatever happened before |
| `AttentionRuns.AnomalySignalIsExact` | attention_router/application/attention.py:638-662 | an assessment reaches the signal of an anomaly exactly when it is one of a missing step of that tenant whose id collapses to the same key |
| `AttentionRuns.UnspacedIdsNameOne` | attention_router/application/attention.py:119-125 | among ids without whitespace the key determines the id |
| `AttentionRuns.FreshCandidate` | attention_router/application/attention.py:194-203 | a fresh candidate has no predecessor on its signal |
| `AttentionRuns.AtMostOneCandidate` | attention_router/application/attention.py:579-695 | over the whole life of the store at most one row of a missing-step signal is ever a candidate, whichever states are compared, if every missing-step assessment that reaches the signal names the same anomaly |
| `AttentionRuns.CandidateIsFirstAndRecent` | attention_router/application/attention.py:568-662 | and when it is created it is the first row of its signal, at most six hours old, of kind RELATIONSHIP or RESOURCE |
| `AttentionRuns.SecondCandidateIff` | attention_router/application/attention.py:194-203 | at any point of a life, a row made behind one of another anomaly id on the same signal is a candidate again exactly when the ids differ and the claim is strong enough for a first row |
| `AttentionRuns.TrailingSpaceIsAnotherId` | attention_router/application/attention.py:119-125 | an id with a space behind it is another id on the same signal |
| `AttentionHistory.FreshIsLatestIff` | attention_router/application/attention.py:157-174 | a fresh row is the latest of its signal exactly when its id sorts above those of the rows that bear its stamp: those of the same instant, and the active one it supersedes |
| `AttentionHistory.NextKeepsHistory` | attention_router/application/attention.py:283-475 | every event of an orderly life keeps every row but the latest inactive; of an id this asks no more than to make its row the latest |
| `AttentionHistory.OnlyTheLatestIsActive` | attention_router/application/attention.py:283-475 | in every state of an orderly life only the latest row of a signal can be active |
| `AttentionHistory.IndexNeverRefuses` | alembic/versions/0056_attention_salience_v0.py:104-111 | neither the superseding update nor the insert behind it is refused by the partial unique index |
| `AttentionHistory.FreshBreaksIndexIff` | attention_router/application/attention.py:332-475 | with any clock and any ids, a fresh snapshot leaves two active rows exactly when the row taken for the latest is not the active one and carries no suppression on |
| `AttentionHistory.ReturnBreaksIndexIff` | attention_router/application/attention.py:283-329 | with any clock and any ids, a return to an earlier snapshot leaves two active rows exactly when it revives that row beside another active one |
| `AttentionHistory.OwnersKeepIndex` | attention_router/application/attention.py:698-781 | no owner action ever leaves two active rows |
| `AttentionHistory.ClockOrIdsBreakIndexIff` | attention_router/application/attention.py:157-174 | of three snapshots with any clock and any ids the third takes another row than the second for the latest exactly when some row outranks the second by stamp and id; it then leaves two active rows unless that row carries a suppression on |
| `AttentionHistory.IdsBreakIndexIff` | attention_router/application/attention.py:283-475 | with a clock that goes forward the third of three snapshots leaves two active rows exactly when the second one's random id sorts below the first one's |
| `AttentionHistory.SuppressingOlderRowBreaksIndexIff` | attention_router/application/attention.py:698-745 | an owner who suppresses an older row makes it the latest unless the clock went back; the next fresh snapshot leaves two active rows exactly when it did, the row that was latest before is active and the suppression is over |
| `AttentionHistory.AcknowledgingOlderRowBreaksIndexIff` | attention_router/application/attention.py:748-781 | likewise for an acknowledgement: exactly when it became the latest, the row that was latest before is active and the acknowledged one is not suppressed |
| `AttentionHistory.NextKeepsMuted` | attention_router/application/attention.py:305-311 | every event before the end of a suppression that keeps to the latest row keeps the signal muted and passes the suppression on; a fresh snapshot does so with any clock and any id |
| `AttentionHistory.SuppressionHolds` | attention_router/application/attention.py:698-804 | from an owner suppression until its end no row of the signal is active and none yields a suggestion, whatever snapshots, refreshes and acknowledgements of its latest row happen, and whatever happens to other signals |
| `AttentionHistory.OrderlyLifeIsSuppressedThrough` | attention_router/application/attention.py:698-804 | in an orderly life every suppression holds like that until its end or the next suppression of the signal |
| `AttentionHistory.ReturnUnmutesIff` | attention_router/application/attention.py:283-329 | a return to an older snapshot ends a suppression early exactly when that row is neither acknowledged nor suppressed itself |
| `AttentionHistory.AcknowledgementUnmutesIff` | attention_router/application/attention.py:748-781 | an owner who acknowledges an older row makes it the latest unless the clock went back; the next fresh snapshot, before the suppression ends, is active exactly when it did and that row carries no suppression |
| `AttentionHistory.FreshUnmutesIff` | attention_router/application/attention.py:332-475 | where no row is active, with any clock and any ids, a fresh snapshot makes one so exactly when the row taken for the latest carries no suppression on |
| `AttentionHistory.NoTwoInARow` | attention_router/application/attention.py:414-428 | of two rows of a signal created one after the other, with anything happening to other signals in between, not both are candidates if the second comes inside the cooldown of the first: the margin by which a score may rise out of it is out of reach |
| `AttentionHistory.AtMostHalfAreCandidates` | attention_router/application/attention.py:380-428 | so at most half of the rows created in a burst inside one cooldown, rounded up, are candidates, other signals interleaving freely |
| `SdkTypes.RenderTypes` | scripts/generate_integration_sdks.py:48-100 | the loop over the definitions yields the module or the first error; what it accepts is `SdkMeaning.ModuleMeans`, when it finishes `SdkMeaning.RenderedIff` |
| `SdkTypes.RenderFields` | scripts/generate_integration_sdks.py:79-88 | the loop over the properties yields the fields, each with its type and its required mark, or the first error; what the marks refuse is `SdkMeaning.RequiredIsHeld` |
| `SdkTypes.ExpressionsAgree` | scripts/generate_integration_sdks.py:13-45 | a node has a Python type exactly when it has a TypeScript type, and otherwise the same error |
| `SdkTypes.BothOrNeither` | scripts/generate_integration_sdks.py:48-100 | the generator writes both SDKs or neither, and fails on both for the same reason |
| `SdkTypes.LookupEmitted` | scripts/generate_integration_sdks.py:65-90 | where a name leads in the schema, it leads in the emitted module |
| `SdkTypes.TypesAgree` | scripts/generate_integration_sdks.py:13-45 | the two types of a node accept the same JSON values, through references of any depth |
| `SdkTypes.ModulesAgree` | scripts/generate_integration_sdks.py:48-100 | the two modules accept the same messages and the same values under every name |
| `SdkTypes.ExpressionIsSound` | scripts/generate_integration_sdks.py:13-45 | a value that a node accepts, its type accepts, whatever the other keywords demand |
| `SdkTypes.ModuleIsSound` | scripts/generate_integration_sdks.py:48-100 | every message and every defined value that the schema accepts, the generated types accept, if definitions with properties say they are objects |
| `SdkTypes.ClassIsSoundIff` | scripts/generate_integration_sdks.py:69-90 | for a definition with properties and nothing else to say, the class accepts all that the definition accepts exactly when its type is object |
| `SdkMeaning.TypeMeans` | scripts/generate_integration_sdks.py:14-45 | the type of a node accepts exactly the values that the keywords accept which the generator reads, in its order, integers read as numbers and oneOf as anyOf, through references of any depth and in both languages |
| `SdkMeaning.ModuleMeans` | scripts/generate_integration_sdks.py:48-108 | the message and every name of a generated module accept exactly that, the last definition of a name included |
| `SdkMeaning.RequiredIsHeld` | scripts/generate_integration_sdks.py:84-97 | a class refuses whatever misses a required property that it declares |
| `SdkMeaning.TypeIsExact` | scripts/generate_integration_sdks.py:14-45 | for schemas that say no more than the generator reads, the type accepts exactly what the schema accepts |
| `SdkMeaning.TypeIsWrittenIn` | scripts/generate_integration_sdks.py:14-45 | a type is written in the forms of its own language only |
| `SdkMeaning.RenderedIff` | scripts/generate_integration_sdks.py:48-108 | a module is written exactly for a schema with definitions and messages, all names identifiers, all objects closed and all nodes of a supported shape |
| `StrictSchema.SchemaNode.Visit` | attention_router/application/ai_interviewer.py:170-190 | the rewrite in place of linked dictionaries turns the schema they stand for into its strict form |
| `StrictSchema.StrictColumns` | attention_router/application/ai_interviewer.py:170-190 | what becomes of every keyword: the default goes, an object is closed and requires its properties in their order, everything below is rewritten but the properties of a node that is no object, and all else stays |
| `StrictSchema.StrictJsonSchema` | attention_router/application/ai_interviewer.py:169-193 | returns the strict form in a fresh outermost dictionary; the argument keeps its own keys while everything below it is rewritten |
| `StrictSchema.ShallowCopy` | attention_router/application/ai_interviewer.py:191-191 | copies the outermost dictionary and shares everything below |
| `StrictSchema.StrictSettles` | attention_router/application/ai_interviewer.py:170-190 | every node the rewrite enters ends without default, and an object node closed with all its properties required |
| `StrictSchema.StrictFixpointIff` | attention_router/application/ai_interviewer.py:170-190 | the rewrite leaves a schema alone exactly when it is settled in this sense |
| `StrictSchema.ArgumentUnchangedIff` | attention_router/application/ai_interviewer.py:169-193 | the argument is left as it was exactly when every dictionary entered below it is settled |
| `StrictSchema.StrictTwice` | attention_router/application/ai_interviewer.py:169-193 | rewriting twice is rewriting once |
| `StrictSchema.StrictIsStricter` | attention_router/application/ai_interviewer.py:170-190 | node by node and through references, what the strict form accepts the original accepts |
| `StrictSchema.StrictIsSound` | attention_router/application/ai_interviewer.py:169-193 | every JSON value that the strict schema accepts, the original accepts, if object nodes require only what they declare and no value fits two alternatives of a oneOf |
| `StrictSchema.RequiredMustBeDeclared` | attention_router/application/ai_interviewer.py:175-178 | an object node whose strict form accepts anything is rewritten soundly exactly when it declares what it requires |
| `StrictSchema.AlternativesMustBeApart` | attention_router/application/ai_interviewer.py:183-190 | a node with alternatives is rewritten soundly exactly when no value that its strict form accepts fits two of the original alternatives |
| `StrictSchema.ClosedAlternativesDiffer` | attention_router/application/ai_interviewer.py:183-190 | for example closing two object alternatives can leave one match of two |
| `TextScan.StripTwice` | scripts/ci_copilot_patch_trial.py:176-176 | stripping twice is stripping once |
| `TextScan.CountOneIff` | scripts/ci_copilot_autofix_proposal_v21.py:145-148 | the count is one exactly when the text splits around the leftmost occurrence with none behind it; replacing puts the new text between the same pieces |
| `TextScan.ReplacementChanges` | scripts/ci_copilot_autofix_proposal_v21.py:143-148 | such a replacement by another text changes the text |
| `TextScan.CountOneIsUniqueUpToOverlap` | scripts/ci_copilot_autofix_proposal_v21.py:145-146 | with a count of one every other occurrence overlaps the first one |
| `TextScan.CountOneIsUniqueIff` | scripts/ci_copilot_autofix_proposal_v21.py:145-146 | a count of one means that there is one region, in every text, exactly when no proper part of the pattern is both its start and its end |
| `TextScan.OverlapIsNotCounted` | scripts/ci_copilot_autofix_proposal_v21.py:145-146 | for example two overlapping occurrences count as one |
| `TextScan.DedupeIsInFirstOrder` | scripts/ci_copilot_autofix_proposal_v21.py:151-151 | the deduplicated list holds each value once, in the order of first occurrences |
| `TextScan.SpacesAre` | scripts/ci_copilot_patch_trial.py:155-176 | which characters are whitespace, and which end a line |
| `TextScan.StripCuts` | scripts/ci_copilot_patch_trial.py:176-176 | stripping cuts two runs of whitespace off and leaves a text that starts and ends without |
| `TextScan.SplitJoins` | scripts/ci_copilot_patch_trial.py:60-63 | the pieces of a split hold no separator, and with it between them they are the text again |
| `TextScan.LineThenRest` | scripts/ci_copilot_patch_trial.py:155-155 | a text splits into the line that its end closes and the lines behind it, a carriage return taking its newline along |
| `CiPatch.ChangedLineCount` | scripts/ci_copilot_patch_trial.py:153-160 | counts the added and removed lines that are not file headers |
| `CiPatch.AcceptedIsAcceptable` | scripts/ci_copilot_patch_trial.py:163-224 | a payload is accepted only as a proposal within every bound, whose headers name exactly its targets, each an allowed test file |
| `CiPatch.AcceptableIsAccepted` | scripts/ci_copilot_patch_trial.py:163-224 | every such proposal, written down, is accepted as itself |
| `CiPatch.ValidationIsFixpoint` | scripts/ci_copilot_patch_trial.py:163-224 | patch validation is a fixpoint on its own output |
| `CiEdit.ApplyEdits` | scripts/ci_copilot_autofix_proposal_v21.py:127-149 | the loop over the edits yields the working copy and the touched paths, or the first error |
| `CiEdit.BuildPatch` | scripts/ci_copilot_autofix_proposal_v21.py:67-88 | joins the diffs of the targets that changed |
| `CiEdit.ValidateStructuredEdit` | scripts/ci_copilot_autofix_proposal_v21.py:91-170 | answers with the validated proposal or the first error |
| `CiEdit.ApplyChains` | scripts/ci_copilot_autofix_proposal_v21.py:131-149 | each edit cuts its file at the one counted occurrence in what the edits before it left, and leaves all other files alone |
| `CiEdit.CancellingEditsAreRejected` | scripts/ci_copilot_autofix_proposal_v21.py:151-158 | edits that leave every file as it was are rejected |
| `CiEdit.TouchedIsChanged` | scripts/ci_copilot_autofix_proposal_v21.py:124-151 | with two edits at most, the touched files are the changed ones unless nothing changed |
| `CiEdit.AcceptedEdit` | scripts/ci_copilot_autofix_proposal_v21.py:91-170 | an accepted edit lists as targets exactly the changed files in first-touch order, and its patch is their diff |
| `Base64.Decode` | scripts/ci_copilot_autofix_persist.py:34-39 | the decoding loop equals its specification, padding and foreign characters included |
| `Base64.DecodeEncode` | scripts/ci_copilot_autofix_proposal.py:127-129 | every byte string comes back from its URL-safe base64 form |
| `Base64.RoundTrip` | scripts/ci_copilot_autofix_persist.py:34-39 | also through the check that the text is ASCII |
| `Base64.PaddingNeeded` | scripts/ci_copilot_autofix_persist.py:34-39 | letters decode exactly when they fill their groups of four or are followed by the padding that is missing |
| `CiArtifact.Excerpt` | scripts/ci_copilot_advisor.py:177-177 | the log excerpt is the whole text, or its first 12000 characters |
| `CiArtifact.DecodeEncode` | scripts/ci_copilot_autofix_persist.py:34-42 | a written artifact decodes to itself when its JSON comes back |
| `CiArtifact.EmittedArtifactRevalidates` | scripts/ci_copilot_autofix_persist.py:80-126 | an emitted artifact, decoded and revalidated for the same source and changed files, yields the same proposal and excerpt exactly when the run was a Public CI run |
| `CiArtifact.EditedArtifactRevalidates` | scripts/ci_copilot_autofix_proposal_v21.py:160-170 | so does a proposal made of structured edits |
| `CiArtifact.AcceptedArtifactIsBound` | scripts/ci_copilot_autofix_persist.py:105-108 | an accepted artifact is accepted for no other repository, pull request, head or branch |
| `CiContract.SafeTestFileIff` | scripts/ci_copilot_patch_trial.py:57-63 | a path may be patched exactly when it is relative, on one line, no option, never upwards, and between blank parts starts with tests and ends with a named Python file |
| `CiContract.ChangeIff` | scripts/ci_copilot_patch_trial.py:153-160 | a line counts as changed exactly when it starts with one plus or minus sign and not with three |
| `CiContract.DiffPathsIff` | scripts/ci_copilot_patch_trial.py:143-150 | a patch has paths exactly when its headers name the same files before and after, in one order, and they are those files, each once |
| `CiContract.PatchAcceptedIff` | scripts/ci_copilot_patch_trial.py:163-224 | a payload is accepted exactly when its keys, schema, words, summary, targets, size, markers, headers and changed lines are within the contract; every key and limit written out |
| `CiContract.PatchAcceptedAs` | scripts/ci_copilot_patch_trial.py:172-224 | and it is accepted as its own texts, the summary stripped |
| `CiContract.EditAcceptedIff` | scripts/ci_copilot_autofix_proposal_v21.py:131-149 | an edit is accepted exactly as its own texts, when they are within the budget and the old one has one counted region in a candidate file |
| `CiContract.EditPayloadAcceptedIff` | scripts/ci_copilot_autofix_proposal_v21.py:91-170 | a structured edit is accepted exactly when its keys, schema, words and summary are within the contract and its one or two edits make a small test patch |
| `CiContract.ArtifactAcceptedIff` | scripts/ci_copilot_autofix_persist.py:80-126 | an artifact is accepted exactly when it is of this repository, pull request, head and branch, of a Public CI run, with a patch that the contract accepts and whose digest it carries, and as just that patch and its excerpt |
| `IntentAuthority.IntentStore.Run` | alembic/versions/0026_production_authority_scope.py:159-222 | a statement takes effect exactly when its trigger permits it and every key holds of what it leaves; otherwise no table changes |
| `IntentAuthority.AlwaysConsistent` | alembic/versions/0026_production_authority_scope.py:108-133 | every state of every run satisfies the keys, checks and partial unique indexes |
| `IntentAuthority.AuthorityNeverChanges` | alembic/versions/0027_frozen_execution_intent_retirement.py:25-30 | what an intent authorizes is constant as long as its row is there, in every state |
| `IntentAuthority.FrozenUntilRetired` | alembic/versions/0027_frozen_execution_intent_retirement.py:15-34 | from frozen until retired, authority and target set are constant and the state is FROZEN or MATERIALIZED |
| `IntentAuthority.MaterializedForever` | alembic/versions/0027_frozen_execution_intent_retirement.py:22-24 | a materialized intent keeps state, authority and targets for as long as its row is there |
| `IntentAuthority.RetiredForever` | alembic/versions/0027_frozen_execution_intent_retirement.py:22-24 | a retired intent stays retired |
| `IntentAuthority.AtMostOneTarget` | alembic/versions/0026_production_authority_scope.py:108-120 | an intent never has two targets |
| `IntentAuthority.TakesTargetIff` | alembic/versions/0026_production_authority_scope.py:176-191 | an intent without target takes one exactly when it is neither frozen nor materialized, so a retired one does |
| `IntentAuthority.BridgeIsInjective` | alembic/versions/0026_production_authority_scope.py:130-132 | no execution intent authorizes two scenario runs |
| `IntentAuthority.NeverRebound` | alembic/versions/0026_production_authority_scope.py:192-222 | while a scenario run is there, the intent that authorizes it is never another one |
| `IntentAuthority.BridgedRunIsFixed` | alembic/versions/0026_production_authority_scope.py:176-222 | a run bridged to a materialized intent keeps its intent, authority and targets, since nobody can delete the intent under it |
| `IntentStatements.IntentInsertIff` | alembic/versions/0026_production_authority_scope.py:108-133 | a new intent is accepted exactly with an idempotency key and a fingerprint of its own |
| `IntentStatements.IntentUpdateIff` | alembic/versions/0027_frozen_execution_intent_retirement.py:15-34 | an update of an intent exactly when id and authority stay and its state stays or moves on |
| `IntentStatements.IntentDeleteIff` | alembic/versions/0026_production_authority_scope.py:108-133 | a delete exactly when no target and no agent intent names it |
| `IntentStatements.TargetInsertIff` | alembic/versions/0026_production_authority_scope.py:108-191 | a target exactly as the first one of an intent that is prepared or retired |
| `IntentStatements.AgentInsertIff` | alembic/versions/0026_production_authority_scope.py:126-133 | a new agent intent exactly unbridged, or bridged with a fingerprint to an intent that no other one is bridged to |
| `IntentStatements.AgentUpdateIff` | alembic/versions/0026_production_authority_scope.py:192-211 | an update exactly when the bridge stays, a bridged request stays, and its id changes only while no run names it |
| `IntentStatements.RunInsertIff` | alembic/versions/0026_production_authority_scope.py:128-132 | a new run exactly for no agent intent, or for one that no other run is for |
| `IntentStatements.RunChangeIff` | alembic/versions/0026_production_authority_scope.py:212-222 | a run keeps its agent intent; nothing else of it is guarded |
| `TraceTree.ParseTrace` | scripts/tempo_trace.py:45-53 | collects the spans of batches and resource spans in order |
| `TraceTree.Renderer.Register` | scripts/tempo_trace.py:72-79 | the parent table answers with the children of every id in order, and the roots are the spans without parent |
| `TraceTree.OnePath` | scripts/tempo_trace.py:83-95 | if no two spans that a root reaches share a child, a span has at most one path from a root, even when parents run in circles |
| `TraceTree.UnsharedIsSimple` | scripts/tempo_trace.py:83-95 | and then no path meets a span twice |
| `TraceTree.PathIsShort` | scripts/tempo_trace.py:83-95 | if no path meets a span twice, no path is longer than there are spans |
| `TraceTree.Renderer.Visit` | scripts/tempo_trace.py:83-95 | appends the line of the span and then those of its children, in order |
| `TraceTree.Renderer.VisitRoots` | scripts/tempo_trace.py:97-98 | appends one line for every path of the tree |
| `TraceTree.Render` | scripts/tempo_trace.py:69-99 | if no path meets a span twice, yields the heading and one line for every path of the tree, or an error without spans |
| `TraceTree.EveryPathIsVisited` | scripts/tempo_trace.py:83-98 | the visit misses no path |
| `TraceTree.ReachableIsPrinted` | scripts/tempo_trace.py:69-99 | if no path meets a span twice, the spans with a line are exactly those a root reaches, whatever ids repeat |
| `TraceTree.PrintedOnceIff` | scripts/tempo_trace.py:69-99 | if no path meets a span twice, no span has two lines exactly when no two spans that a root reaches share a child |
| `TraceTree.EachReachableOnce` | scripts/tempo_trace.py:69-99 | with distinct ids every span that a root reaches is printed exactly once, and no other |
| `TraceTree.Prefix` | scripts/tempo_trace.py:83-95 | the prefix of a line has four characters for each ancestor |
| `TraceTree.PrefixAt` | scripts/tempo_trace.py:95-95 | and each four tell whether that ancestor has a later sibling |
| `TraceTree.LineAt` | scripts/tempo_trace.py:83-85 | a line is its prefix, a corner or a branch by whether a later span has the same parent, and the text of its span |
| `TraceTree.VisitEndsIff` | scripts/tempo_trace.py:83-95 | the depth of the visit is bounded exactly when no path meets a span twice, and then by the number of spans |
| `TraceTree.SharedIdNeverEnds` | scripts/tempo_trace.py:83-95 | a root whose id is both id and parent of another span makes the visit endless |
| `TraceTree.LeavesMayShareIds` | scripts/tempo_trace.py:83-95 | where only ids repeat that no span names as its parent, no two spans share a child and no path meets a span twice |

## Left out

- SQL text, locks, DDL, downgrades, `TRUNCATE` and session settings: a table is a map, a query a predicate on rows, and a statement addresses one row.
- The order of `ORDER BY id`: loops run over the selected rows in some order, or in one that is given, and every result holds for all of them.
- Triggers and checks of tables that appear only as foreign keys (tenants, interactions, outbox guards of 0029): rows of those tables are inputs.
- Inbox claims during the migration: the claim columns are created after the evidence procedures ran, so these start from unclaimed rows.
- Audit events that the recovery writes carry the columns a guard reads; tenant, correlation and causation columns are not modelled.
- Redaction of historical audits and statuses, and human approval delivery evidence (0030:758-969, 1042-1195): row-wise rewrites without cross-table claims. The status redaction is not idempotent on booleans and negative integers.
- Stable ids, scope fingerprints and payload hashes: arbitrary functions. A stable id that is taken blocks; nothing assumes that they are injective.
- Clocks, actors and owner bindings are inputs. So are the ids of attention rows: any number that is not taken, since the original mints them at random and only their order matters.
- Floating point: attention scores and thresholds are exact decimals in millionths, so the last rounding step of the original is exact here; components are rounded once, half to even included.
- A snapshot stands for its own fingerprint, and stored reason codes, sorted and without repetition, are a set. The provenance column is left out.
- Upper-casing: sensitivity is an enumeration.
- AttentionStore.Store.Suppress: the reason is stored as it was collapsed; the original also upper-cases it, and case folding of arbitrary text is not modelled.
- Other tables that refer to a modelled one, such as the audit markers of 0029 and the outbox: a delete that only they would refuse is accepted here.
- Rows of the attention store are updated in a map; identity of row objects inside a session is not modelled.
- AttentionHistory.IndexNeverRefuses: for orderly lives, in which the clock does not go back, owners act on the latest row, no snapshot before the latest returns, and an id sorts above that of the row it supersedes and those of rows of the same instant. For all others `FreshBreaksIndexIff`, `ReturnBreaksIndexIff` and `OwnersKeepIndex` say of each event, whatever clock and ids, exactly whether it leaves two active rows.
- AttentionHistory.OnlyTheLatestIsActive: for orderly lives, with the same three lemmas for the rest.
- AttentionHistory.SuppressionHolds: for a suppression of the row that is then the latest, until the next one of the signal, without returns to older snapshots or acknowledgements of older rows, and with a clock that does not push the latest row behind another when it is refreshed or acknowledged. `ReturnUnmutesIff`, `AcknowledgementUnmutesIff` and `FreshUnmutesIff` say exactly when a suppression ends early.
- AttentionHistory.NoTwoInARow: for orderly lives.
- AttentionRuns.AtMostOneCandidate: for signals that one anomaly id names; `SecondCandidateIff` says exactly when a second id adds a candidate.
- Text of the generated SDK files: header lines, quoting of literals, `__all__` and line layout; an emitted type is a tree. An empty union or literal list, which would not parse, accepts nothing. Definitions named like the generated `JsonValue` or `IntegrationContractMessage` are not told apart from them.
- Python lets `bool` stand for `int`; here a JSON boolean is not a number in either language.
- `prefixItems` and `patternProperties` are not keywords of the node model; all other keywords are one predicate that only restricts. References other than `#/$defs/` are rejected by the generator and accept nothing in the rewrite.
- SdkTypes.ModuleIsSound: for schemas whose definitions with properties say that they are objects; `ClassIsSoundIff` shows what happens without.
- SdkTypes.RenderTypes: `str.isidentifier` is any predicate on names.
- SdkMeaning.TypeIsExact: for schemas that say no more than the generator reads; for all others `TypeMeans` says exactly what the types accept.
- StrictSchema.StrictIsSound: `RequiredMustBeDeclared` and `AlternativesMustBeApart` say exactly what happens without its two conditions. Keywords that the rewrite does not enter, `not` among them, are one predicate and hold no references.
- StrictSchema.SchemaNode.Visit: dictionaries below one node are distinct objects; a schema that links the same dictionary twice is not modelled. A `type` that is a list of names is not `object` and counts among the other keywords.
- Schemas, payloads and JSON values nest finitely; numbers are reals.
- `str(...)` and `int(...)` of values that are not texts or numbers, JSON text, UTF-8, SHA-256 and `difflib` are arbitrary functions; a written artifact is required to parse back to itself, which fails only for lone surrogates.
- CiEdit.ValidateStructuredEdit: the unified diff of two texts is any function; only that equal texts contribute nothing is used. `git apply` and everything that touches a checkout are left out.
- At most one persistent autofix per pull request is not claimed: the comment that records it is overwritten by a later proposal.
- GitHub, OpenAI, Docker, OpenTelemetry and HTTP calls, and every `main` function.
- Changes of an intent's `created_at`, `frozen_at` and `retired_at`, which its trigger permits in every state, are modelled as permitted and nothing more.
- Updates of authority profiles, scenario authority bindings and the other versioned tables of 0026: one trigger each, without cross-table claims.
- Span labels (name, status, duration, safe attributes) are one text; joining the lines with newlines is left out.
- TraceTree.Render: for spans of which no path meets one twice; by `VisitEndsIff` the visit of all others does not end. Python's recursion limit is not modelled.
- Constraints-only tables and settings (0031-0061, `config.py`), owner-control phrases, webhook normalization and comment rendering: easy members.
