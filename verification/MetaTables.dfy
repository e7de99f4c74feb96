/**
 The tables behind Meta delivery reconciliation, with the constraints and the row
 triggers that are in force once migration 0030 has run. A table maps a primary key to
 its row, and every row carries its own key, so that a statement which rewrites a key is
 a statement like any other. A statement takes effect exactly when the row triggers let
 it through and every constraint holds of the tables it leaves behind.
 */
module MetaTables {
  import opened Common

  type Instant = int

  const NOT_FOUND := "PRODUCTION_META_RECONCILIATION_NOT_FOUND"

  datatype ReconciliationState = Pending | Passed | Failed
  datatype OperationalState = Active | Quarantined
  datatype InboxState = InboxPending | InboxCorrelated | InboxQuarantined

  datatype Reconciliation = Reconciliation(
    id: string,
    tenantId: string,
    outboxId: string,
    providerId: string,
    acceptedAt: Instant,
    deadlineAt: Instant,
    closureAfter: Instant,
    nextReconcileAt: Instant,
    state: ReconciliationState,
    terminalReason: Option<string>,
    terminalAt: Option<Instant>,
    evidenceCount: int,
    lastReconciledAt: Option<Instant>,
    createdAt: Instant,
    updatedAt: Instant,
    operational: OperationalState,
    failureCount: int,
    lastFailureAt: Option<Instant>,
    lastFailureCode: Option<string>,
    quarantinedAt: Option<Instant>,
    quarantineReason: Option<string>,
    requeueAuditId: Option<string>)

  /** What the provider reported: the six columns that inbox and evidence rows share. */
  datatype Event = Event(
    status: Option<string>,
    timestampRaw: Option<string>,
    timestamp: Option<Instant>,
    valid: bool,
    errorsPresent: bool,
    errorFingerprint: Option<string>)

  /** The three claim columns, which the lifecycle check makes null or set together. */
  datatype Claim = Claim(token: string, holder: string, at: Instant)

  datatype Inbox = Inbox(
    id: string,
    providerId: string,
    dedupKey: string,
    event: Event,
    receivedAt: Instant,
    state: InboxState,
    reconciliationId: Option<string>,
    attemptCount: int,
    nextCorrelationAt: Instant,
    lastErrorCode: Option<string>,
    correlatedAt: Option<Instant>,
    quarantinedAt: Option<Instant>,
    createdAt: Instant,
    updatedAt: Instant,
    claim: Option<Claim>,
    requeueAuditId: Option<string>)

  datatype Evidence = Evidence(
    id: string,
    reconciliationId: string,
    inboxId: Option<string>,
    dedupKey: string,
    event: Event,
    receivedAt: Instant,
    admissible: bool,
    createdAt: Instant)

  /** The columns and payload members of an audit event that a guard reads. */
  datatype Audit = Audit(
    id: string,
    eventType: string,
    previousState: Option<string>,
    nextState: Option<string>,
    origin: string,
    inboxId: Option<string>,
    reconciliationId: Option<string>)

  datatype Tables = Tables(
    recons: map<string, Reconciliation>,
    inbox: map<string, Inbox>,
    evidence: map<string, Evidence>,
    audits: map<string, Audit>)

  // ----- check constraints -----

  predicate ReconciliationCheck(r: Reconciliation) {
    && r.evidenceCount >= 0
    && r.failureCount >= 0
    && r.acceptedAt < r.deadlineAt < r.closureAfter
    && (if r.state == Pending then r.terminalReason.None? && r.terminalAt.None?
        else r.terminalReason.Some? && r.terminalAt.Some?)
    && (if r.operational == Active then r.quarantinedAt.None? && r.quarantineReason.None?
        else r.state == Pending && r.quarantinedAt.Some? && r.quarantineReason.Some?)
  }

  predicate InboxCheck(q: Inbox) {
    && q.attemptCount >= 0
    && (match q.state
        case InboxPending =>
          q.reconciliationId.None? && q.correlatedAt.None? && q.quarantinedAt.None?
        case InboxCorrelated =>
          q.reconciliationId.Some? && q.correlatedAt.Some? && q.quarantinedAt.None?
        case InboxQuarantined =>
          q.reconciliationId.None? && q.correlatedAt.None? && q.quarantinedAt.Some?)
    && (q.claim.Some? ==> q.state == InboxPending)
  }

  // ----- keys, unique constraints and foreign keys -----

  predicate KeysMatch(t: Tables) {
    && (forall k | k in t.recons :: t.recons[k].id == k)
    && (forall k | k in t.inbox :: t.inbox[k].id == k)
    && (forall k | k in t.evidence :: t.evidence[k].id == k)
    && (forall k | k in t.audits :: t.audits[k].id == k)
  }

  predicate RowChecks(t: Tables) {
    && (forall k | k in t.recons :: ReconciliationCheck(t.recons[k]))
    && (forall k | k in t.inbox :: InboxCheck(t.inbox[k]))
  }

  predicate UniqueReconciliations(t: Tables) {
    forall j, k | j in t.recons && k in t.recons && j != k ::
      && t.recons[j].providerId != t.recons[k].providerId
      && t.recons[j].outboxId != t.recons[k].outboxId
  }

  predicate UniqueInbox(t: Tables) {
    forall j, k | j in t.inbox && k in t.inbox && j != k ::
      && (t.inbox[j].providerId != t.inbox[k].providerId || t.inbox[j].dedupKey != t.inbox[k].dedupKey)
      && (t.inbox[j].claim.Some? && t.inbox[k].claim.Some? ==>
            t.inbox[j].claim.value.token != t.inbox[k].claim.value.token)
  }

  predicate UniqueEvidence(t: Tables) {
    forall j, k | j in t.evidence && k in t.evidence && j != k ::
      && (t.evidence[j].reconciliationId != t.evidence[k].reconciliationId
          || t.evidence[j].dedupKey != t.evidence[k].dedupKey)
      && (t.evidence[j].inboxId.Some? ==> t.evidence[j].inboxId != t.evidence[k].inboxId)
  }

  predicate ForeignKeys(t: Tables) {
    && (forall k | k in t.evidence ::
          && t.evidence[k].reconciliationId in t.recons
          && (t.evidence[k].inboxId.Some? ==> t.evidence[k].inboxId.value in t.inbox))
    && (forall k | k in t.inbox ::
          && (t.inbox[k].reconciliationId.Some? ==> t.inbox[k].reconciliationId.value in t.recons)
          && (t.inbox[k].requeueAuditId.Some? ==> t.inbox[k].requeueAuditId.value in t.audits))
    && (forall k | k in t.recons ::
          t.recons[k].requeueAuditId.Some? ==> t.recons[k].requeueAuditId.value in t.audits)
  }

  predicate Consistent(t: Tables) {
    && KeysMatch(t)
    && RowChecks(t)
    && UniqueReconciliations(t)
    && UniqueInbox(t)
    && UniqueEvidence(t)
    && ForeignKeys(t)
  }

  // ----- row triggers -----

  /** Trigger meta_delivery_reconciliation_lifecycle. */
  predicate LifecycleAllows(old_: Reconciliation, new_: Reconciliation) {
    && old_.outboxId == new_.outboxId
    && old_.providerId == new_.providerId
    && old_.tenantId == new_.tenantId
    && old_.acceptedAt == new_.acceptedAt
    && old_.deadlineAt == new_.deadlineAt
    && old_.closureAfter == new_.closureAfter
    && (old_.state != Pending ==> old_ == new_)
  }

  /** An audit row that authorizes one return of reconciliation `id` from quarantine. */
  predicate AuthorizesRequeue(a: Audit, id: string) {
    && a.eventType == "production_meta_reconciliation_requeued"
    && a.previousState == Some("QUARANTINED")
    && a.nextState == Some("ACTIVE")
    && a.origin == "meta_callback_reconciler_v2"
    && a.reconciliationId == Some(id)
  }

  /** Trigger meta_delivery_reconciliation_quarantine. */
  predicate QuarantineAllows(audits: map<string, Audit>, old_: Reconciliation, new_: Reconciliation) {
    && (old_.operational == Quarantined && old_ != new_ ==>
          && new_.operational == Active
          && new_.state == Pending
          && new_.failureCount == 0
          && new_.lastFailureAt.None?
          && new_.lastFailureCode.None?
          && new_.quarantinedAt.None?
          && new_.quarantineReason.None?
          && new_.requeueAuditId.Some?
          && new_.requeueAuditId != old_.requeueAuditId
          && new_.requeueAuditId.value in audits
          && AuthorizesRequeue(audits[new_.requeueAuditId.value], old_.id))
    && (old_.requeueAuditId != new_.requeueAuditId ==>
          old_.operational == Quarantined && new_.operational == Active)
  }

  /** An audit row that authorizes one return of inbox row `id` to PENDING. */
  predicate AuthorizesInboxRequeue(a: Audit, id: string) {
    && a.eventType == "production_meta_callback_inbox_requeued"
    && a.previousState == Some("QUARANTINED")
    && a.nextState == Some("PENDING")
    && a.origin == "meta_callback_reconciler_v2"
    && a.inboxId == Some(id)
  }

  /** An audit row that records inbox row `id` being correlated to reconciliation `r`. */
  predicate RecordsExactAcceptance(a: Audit, id: string, r: string) {
    && a.eventType == "production_meta_callback_exact_acceptance_requeued"
    && a.previousState == Some("QUARANTINED")
    && a.nextState == Some("CORRELATED")
    && (a.origin == "meta_callback_reconciler_v2" || a.origin == "meta_callback_reconciler_v2_migration")
    && a.inboxId == Some(id)
    && a.reconciliationId == Some(r)
  }

  predicate SameCallback(old_: Inbox, new_: Inbox) {
    && old_.providerId == new_.providerId
    && old_.dedupKey == new_.dedupKey
    && old_.event == new_.event
    && old_.receivedAt == new_.receivedAt
    && old_.createdAt == new_.createdAt
  }

  /**
   The one way from QUARANTINED to CORRELATED. The guard refuses when a negated conjunction is
   true; comparing an error code that is null leaves it unknown, which refuses nothing.
   */
  predicate ExactAcceptanceAllows(t: Tables, old_: Inbox, new_: Inbox) {
    && (old_.lastErrorCode.None? || old_.lastErrorCode == Some(NOT_FOUND))
    && new_.state == InboxCorrelated
    && new_.lastErrorCode.None?
    && new_.quarantinedAt.None?
    && new_.reconciliationId.Some?
    && new_.reconciliationId.value in t.recons
    && t.recons[new_.reconciliationId.value].providerId == old_.providerId
    && (exists e | e in t.evidence ::
          && t.evidence[e].inboxId == Some(old_.id)
          && t.evidence[e].reconciliationId == new_.reconciliationId.value
          && t.evidence[e].dedupKey == old_.dedupKey)
    && (exists a | a in t.audits ::
          RecordsExactAcceptance(t.audits[a], old_.id, new_.reconciliationId.value))
  }

  /** The one way from QUARANTINED back to PENDING. */
  predicate InboxRequeueAllows(t: Tables, old_: Inbox, new_: Inbox) {
    && new_.state == InboxPending
    && new_.reconciliationId.None?
    && new_.correlatedAt.None?
    && new_.quarantinedAt.None?
    && new_.lastErrorCode.None?
    && new_.attemptCount == 0
    && new_.claim.None?
    && new_.requeueAuditId.Some?
    && new_.requeueAuditId != old_.requeueAuditId
    && new_.requeueAuditId.value in t.audits
    && AuthorizesInboxRequeue(t.audits[new_.requeueAuditId.value], old_.id)
  }

  /** Trigger meta_callback_inbox_lifecycle, as migration 0030 leaves it. */
  predicate InboxAllows(t: Tables, old_: Inbox, new_: Inbox) {
    && SameCallback(old_, new_)
    && (old_.requeueAuditId != new_.requeueAuditId ==>
          && old_.state == InboxQuarantined
          && new_.state == InboxPending
          && new_.requeueAuditId.Some?
          && new_.requeueAuditId.value in t.audits
          && AuthorizesInboxRequeue(t.audits[new_.requeueAuditId.value], old_.id))
    && (old_.state == InboxCorrelated ==> old_ == new_)
    && (old_.state == InboxQuarantined ==>
          ExactAcceptanceAllows(t, old_, new_) || InboxRequeueAllows(t, old_, new_))
  }
}
