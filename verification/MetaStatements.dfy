/**
 When each statement on the tables of Meta delivery reconciliation is accepted, said column by
 column: what its trigger, the check constraints, the unique keys and the foreign keys leave of
 it together.
 */
module MetaStatements {
  import opened Common
  import opened MetaTables
  import opened MetaLifecycle

  // ----- reconciliations -----

  /** An update that keeps its key: identity and windows stay, and quarantine is left by an audited reset only. */
  lemma ReconciliationUpdateAcceptedIff(t: Tables, id: string, r: Reconciliation)
    requires Consistent(t) && id in t.recons && r.id == id
    ensures var o := t.recons[id];
      Accepted(t, UpdateReconciliation(id, r)) <==>
      && r.outboxId == o.outboxId && r.providerId == o.providerId && r.tenantId == o.tenantId
      && r.acceptedAt == o.acceptedAt && r.deadlineAt == o.deadlineAt && r.closureAfter == o.closureAfter
      && (o.state != Pending ==> r == o)
      && r.evidenceCount >= 0 && r.failureCount >= 0
      && (r.state == Pending <==> r.terminalReason.None?) && (r.state == Pending <==> r.terminalAt.None?)
      && (r.operational == Active <==> r.quarantinedAt.None?)
      && (r.operational == Active <==> r.quarantineReason.None?)
      && (r.operational == Quarantined ==> r.state == Pending)
      && (o.operational == Quarantined && r != o ==>
            && r.operational == Active && r.state == Pending
            && r.failureCount == 0 && r.lastFailureAt.None? && r.lastFailureCode.None?
            && r.requeueAuditId.Some? && r.requeueAuditId.value in t.audits && r.requeueAuditId != o.requeueAuditId
            && var a := t.audits[r.requeueAuditId.value];
            && a.eventType == "production_meta_reconciliation_requeued" && a.origin == "meta_callback_reconciler_v2"
            && a.previousState == Some("QUARANTINED") && a.nextState == Some("ACTIVE")
            && a.reconciliationId == Some(id))
      && (r.requeueAuditId != o.requeueAuditId ==> o.operational == Quarantined && r.operational == Active)
  {
    hide KeysMatch, RowChecks, UniqueReconciliations, UniqueInbox, UniqueEvidence, ForeignKeys, Consistent;
    QuarantinedReconciliation(t, id);
    var u := t.(recons := t.recons[id := r]);
    assert Effect(t, UpdateReconciliation(id, r)) == u;
    if r.outboxId == t.recons[id].outboxId && r.providerId == t.recons[id].providerId {
      ReconciliationAuditKnown(t, id);
      if ReconciliationCheck(r) && (r.requeueAuditId.Some? ==> r.requeueAuditId.value in t.audits) {
        SameIdentityStaysConsistent(t, id, r);
      }
    }
    if Consistent(u) {
      QuarantinedReconciliation(u, id);
    }
  }

  lemma ReconciliationAuditKnown(t: Tables, id: string)
    requires Consistent(t) && id in t.recons
    ensures t.recons[id].requeueAuditId.Some? ==> t.recons[id].requeueAuditId.value in t.audits
  {
    hide KeysMatch, RowChecks, UniqueReconciliations, UniqueInbox, UniqueEvidence;
  }

  /** A new reconciliation needs a provider id and an outbox message of its own. */
  lemma ReconciliationInsertAcceptedIff(t: Tables, r: Reconciliation)
    requires Consistent(t)
    ensures Accepted(t, InsertReconciliation(r)) <==>
      && r.id !in t.recons
      && r.acceptedAt < r.deadlineAt < r.closureAfter && r.evidenceCount >= 0 && r.failureCount >= 0
      && (r.state == Pending <==> r.terminalReason.None?) && (r.state == Pending <==> r.terminalAt.None?)
      && (r.operational == Active <==> r.quarantinedAt.None?)
      && (r.operational == Active <==> r.quarantineReason.None?)
      && (r.operational == Quarantined ==> r.state == Pending)
      && (forall k | k in t.recons :: t.recons[k].providerId != r.providerId && t.recons[k].outboxId != r.outboxId)
      && (r.requeueAuditId.Some? ==> r.requeueAuditId.value in t.audits)
  {
    hide KeysMatch, RowChecks, UniqueReconciliations, UniqueInbox, UniqueEvidence, ForeignKeys;
    assert Effect(t, InsertReconciliation(r)) == t.(recons := t.recons[r.id := r]);
    if r.id !in t.recons {
      ReconciliationInsertKeeps(t, r);
      ReconciliationInsertUniqueIff(t, r);
    }
  }

  lemma ReconciliationInsertUniqueIff(t: Tables, r: Reconciliation)
    requires UniqueReconciliations(t) && r.id !in t.recons
    ensures UniqueReconciliations(t.(recons := t.recons[r.id := r])) <==>
      forall k | k in t.recons :: t.recons[k].providerId != r.providerId && t.recons[k].outboxId != r.outboxId
  {
    var u := t.(recons := t.recons[r.id := r]);
    assert u.recons[r.id] == r;
    assert forall k | k in t.recons :: u.recons[k] == t.recons[k];
  }

  lemma ReconciliationInsertKeeps(t: Tables, r: Reconciliation)
    requires Consistent(t) && r.id !in t.recons
    ensures var u := t.(recons := t.recons[r.id := r]);
      && KeysMatch(u) && UniqueInbox(u) && UniqueEvidence(u)
      && (RowChecks(u) <==> ReconciliationCheck(r))
      && (ForeignKeys(u) <==> (r.requeueAuditId.Some? ==> r.requeueAuditId.value in t.audits))
  {
    hide ReconciliationCheck, InboxCheck, UniqueReconciliations, ForeignKeys;
    var u := t.(recons := t.recons[r.id := r]);
    assert u.recons[r.id] == r;
    assert forall k | k in t.recons :: u.recons[k] == t.recons[k];
    ReconciliationInsertForeignKeys(t, r);
  }

  lemma ReconciliationInsertForeignKeys(t: Tables, r: Reconciliation)
    requires ForeignKeys(t) && r.id !in t.recons
    ensures ForeignKeys(t.(recons := t.recons[r.id := r])) <==>
      (r.requeueAuditId.Some? ==> r.requeueAuditId.value in t.audits)
  {
    var u := t.(recons := t.recons[r.id := r]);
    assert u.recons[r.id] == r;
    assert forall k | k in t.recons :: u.recons[k] == t.recons[k];
  }

  /** A reconciliation goes only when no evidence and no inbox row names it. */
  lemma ReconciliationDeleteAcceptedIff(t: Tables, id: string)
    requires Consistent(t)
    ensures Accepted(t, DeleteReconciliation(id)) <==>
      && id in t.recons
      && (forall e | e in t.evidence :: t.evidence[e].reconciliationId != id)
      && (forall q | q in t.inbox :: t.inbox[q].reconciliationId != Some(id))
  {
    hide KeysMatch, RowChecks, UniqueReconciliations, UniqueInbox, UniqueEvidence, ForeignKeys;
    assert Effect(t, DeleteReconciliation(id)) == t.(recons := t.recons - {id});
    ReconciliationDeleteKeeps(t, id);
  }

  lemma ReconciliationDeleteKeeps(t: Tables, id: string)
    requires Consistent(t)
    ensures var u := t.(recons := t.recons - {id});
      && KeysMatch(u) && RowChecks(u) && UniqueReconciliations(u) && UniqueInbox(u) && UniqueEvidence(u)
      && (ForeignKeys(u) <==>
            && (forall e | e in t.evidence :: t.evidence[e].reconciliationId != id)
            && (forall q | q in t.inbox :: t.inbox[q].reconciliationId != Some(id)))
  {
    hide ReconciliationCheck, InboxCheck;
  }

  // ----- inbox rows -----

  /**
   An update of an inbox row that keeps its key: the callback stays, a correlated row is frozen,
   a quarantined one goes to CORRELATED with all that vouches for it or back to PENDING by an
   audited reset, and no other move touches the requeue audit id.
   */
  lemma InboxUpdateAcceptedIff(t: Tables, id: string, n: Inbox)
    requires Consistent(t) && id in t.inbox && n.id == id
    ensures var o := t.inbox[id];
      Accepted(t, UpdateInbox(id, n)) <==>
      && n.providerId == o.providerId && n.dedupKey == o.dedupKey && n.event == o.event
      && n.receivedAt == o.receivedAt && n.createdAt == o.createdAt
      && (o.state == InboxCorrelated ==> n == o)
      && (o.state == InboxQuarantined ==> VouchedMove(t, id, o, n) || AuditedReset(t, id, o, n))
      && (n.requeueAuditId != o.requeueAuditId ==>
            && o.state == InboxQuarantined && n.state == InboxPending && RequeueAudited(t, id, n.requeueAuditId))
      && InboxColumns(t, id, n)
  {
    hide KeysMatch, RowChecks, UniqueReconciliations, UniqueInbox, UniqueEvidence, ForeignKeys, Consistent;
    QuarantinedRow(t, id);
    if n.providerId == t.inbox[id].providerId && n.dedupKey == t.inbox[id].dedupKey {
      InboxUpdateConsistentIff(t, id, n);
    }
    GuardIff(t, t.inbox[id], n);
  }

  /** Columns of the check constraint, the claim token and the keys into other tables. */
  ghost predicate InboxColumns(t: Tables, id: string, n: Inbox) {
    && n.attemptCount >= 0
    && (n.state == InboxCorrelated <==> n.reconciliationId.Some?)
    && (n.state == InboxCorrelated <==> n.correlatedAt.Some?)
    && (n.state == InboxQuarantined <==> n.quarantinedAt.Some?)
    && (n.claim.Some? ==> n.state == InboxPending)
    && (forall k | k in t.inbox && k != id && t.inbox[k].claim.Some? && n.claim.Some? ::
          t.inbox[k].claim.value.token != n.claim.value.token)
    && (n.reconciliationId.Some? ==> n.reconciliationId.value in t.recons)
    && (n.requeueAuditId.Some? ==> n.requeueAuditId.value in t.audits)
  }

  ghost predicate RequeueAudited(t: Tables, id: string, auditId: Option<string>) {
    && auditId.Some? && auditId.value in t.audits
    && var a := t.audits[auditId.value];
    && a.eventType == "production_meta_callback_inbox_requeued" && a.origin == "meta_callback_reconciler_v2"
    && a.previousState == Some("QUARANTINED") && a.nextState == Some("PENDING") && a.inboxId == Some(id)
  }

  ghost predicate AuditedReset(t: Tables, id: string, o: Inbox, n: Inbox) {
    && n.state == InboxPending && n.reconciliationId.None? && n.correlatedAt.None? && n.quarantinedAt.None?
    && n.lastErrorCode.None? && n.attemptCount == 0 && n.claim.None?
    && n.requeueAuditId != o.requeueAuditId && RequeueAudited(t, id, n.requeueAuditId)
  }

  ghost predicate VouchedMove(t: Tables, id: string, o: Inbox, n: Inbox) {
    && n.state == InboxCorrelated && n.lastErrorCode.None? && n.quarantinedAt.None? && n.reconciliationId.Some?
    && (o.lastErrorCode.Some? ==> o.lastErrorCode == Some("PRODUCTION_META_RECONCILIATION_NOT_FOUND"))
    && VouchedBy(t, id, o, n.reconciliationId.value)
  }

  /** A reconciliation of the provider id, evidence for the key and an audit row, each naming the inbox row. */
  ghost predicate VouchedBy(t: Tables, id: string, o: Inbox, r: string) {
    && r in t.recons && t.recons[r].providerId == o.providerId
    && (exists e :: && e in t.evidence && t.evidence[e].inboxId == Some(id)
                    && t.evidence[e].reconciliationId == r && t.evidence[e].dedupKey == o.dedupKey)
    && (exists a :: && a in t.audits
                    && t.audits[a].eventType == "production_meta_callback_exact_acceptance_requeued"
                    && t.audits[a].origin in {"meta_callback_reconciler_v2", "meta_callback_reconciler_v2_migration"}
                    && t.audits[a].previousState == Some("QUARANTINED") && t.audits[a].nextState == Some("CORRELATED")
                    && t.audits[a].inboxId == Some(id) && t.audits[a].reconciliationId == Some(r))
  }

  lemma GuardIff(t: Tables, o: Inbox, n: Inbox)
    ensures ExactAcceptanceAllows(t, o, n) <==> VouchedMove(t, o.id, o, n)
    ensures InboxRequeueAllows(t, o, n) <==> AuditedReset(t, o.id, o, n)
    ensures RequeueAudited(t, o.id, n.requeueAuditId) <==>
      && n.requeueAuditId.Some? && n.requeueAuditId.value in t.audits
      && AuthorizesInboxRequeue(t.audits[n.requeueAuditId.value], o.id)
  {
    if n.reconciliationId.Some? {
      var r := n.reconciliationId.value;
      if VouchedBy(t, o.id, o, r) {
        var a :| && a in t.audits
                 && t.audits[a].eventType == "production_meta_callback_exact_acceptance_requeued"
                 && t.audits[a].origin in {"meta_callback_reconciler_v2", "meta_callback_reconciler_v2_migration"}
                 && t.audits[a].previousState == Some("QUARANTINED") && t.audits[a].nextState == Some("CORRELATED")
                 && t.audits[a].inboxId == Some(o.id) && t.audits[a].reconciliationId == Some(r);
        assert RecordsExactAcceptance(t.audits[a], o.id, r);
      }
    }
  }

  lemma InboxUpdateConsistentIff(t: Tables, id: string, n: Inbox)
    requires Consistent(t) && id in t.inbox && n.id == id
    requires n.providerId == t.inbox[id].providerId && n.dedupKey == t.inbox[id].dedupKey
    ensures Consistent(Effect(t, UpdateInbox(id, n))) <==> InboxColumns(t, id, n)
  {
    hide KeysMatch, RowChecks, UniqueReconciliations, UniqueInbox, UniqueEvidence, ForeignKeys;
    assert Effect(t, UpdateInbox(id, n)) == t.(inbox := t.inbox[id := n]);
    InboxUpdateKeeps(t, id, n);
    InboxTokensIff(t, id, n);
  }

  lemma InboxUpdateKeeps(t: Tables, id: string, n: Inbox)
    requires Consistent(t) && id in t.inbox && n.id == id
    ensures var u := t.(inbox := t.inbox[id := n]);
      && KeysMatch(u) && UniqueReconciliations(u) && UniqueEvidence(u)
      && (RowChecks(u) <==> InboxCheck(n))
      && (ForeignKeys(u) <==>
            && (n.reconciliationId.Some? ==> n.reconciliationId.value in t.recons)
            && (n.requeueAuditId.Some? ==> n.requeueAuditId.value in t.audits))
  {
    hide ReconciliationCheck, InboxCheck, UniqueInbox, ForeignKeys;
    var u := t.(inbox := t.inbox[id := n]);
    assert u.inbox[id] == n;
    assert forall k | k in t.inbox && k != id :: u.inbox[k] == t.inbox[k];
    InboxForeignKeys(t, id, n);
  }

  lemma InboxTokensIff(t: Tables, id: string, n: Inbox)
    requires UniqueInbox(t) && id in t.inbox
    requires n.providerId == t.inbox[id].providerId && n.dedupKey == t.inbox[id].dedupKey
    ensures UniqueInbox(t.(inbox := t.inbox[id := n])) <==>
      forall k | k in t.inbox && k != id && t.inbox[k].claim.Some? && n.claim.Some? ::
        t.inbox[k].claim.value.token != n.claim.value.token
  {
    var u := t.(inbox := t.inbox[id := n]);
    assert u.inbox[id] == n;
    assert forall k | k in t.inbox && k != id :: u.inbox[k] == t.inbox[k];
  }

  /** The reset that brings a parked row back: accepted exactly with an audit row of its own that says so. */
  lemma InboxRequeueAcceptedIff(t: Tables, id: string, a: string, at: Instant)
    requires Consistent(t) && id in t.inbox && t.inbox[id].state == InboxQuarantined
    ensures var n := t.inbox[id].(state := InboxPending, reconciliationId := None, correlatedAt := None,
        quarantinedAt := None, lastErrorCode := None, attemptCount := 0, nextCorrelationAt := at, updatedAt := at,
        claim := None, requeueAuditId := Some(a));
      Accepted(t, UpdateInbox(id, n)) <==>
      && a in t.audits && t.inbox[id].requeueAuditId != Some(a)
      && t.audits[a].eventType == "production_meta_callback_inbox_requeued"
      && t.audits[a].previousState == Some("QUARANTINED") && t.audits[a].nextState == Some("PENDING")
      && t.audits[a].origin == "meta_callback_reconciler_v2" && t.audits[a].inboxId == Some(id)
  {
    hide Accepted, Consistent;
    QuarantinedRow(t, id);
    var n := t.inbox[id].(state := InboxPending, reconciliationId := None, correlatedAt := None,
      quarantinedAt := None, lastErrorCode := None, attemptCount := 0, nextCorrelationAt := at, updatedAt := at,
      claim := None, requeueAuditId := Some(a));
    InboxUpdateAcceptedIff(t, id, n);
  }

  /** A new inbox row needs a callback key and a claim token of its own. */
  lemma InboxInsertAcceptedIff(t: Tables, n: Inbox)
    requires Consistent(t)
    ensures Accepted(t, InsertInbox(n)) <==>
      && n.id !in t.inbox
      && (forall k | k in t.inbox :: t.inbox[k].providerId != n.providerId || t.inbox[k].dedupKey != n.dedupKey)
      && InboxColumns(t, n.id, n)
  {
    hide KeysMatch, RowChecks, UniqueReconciliations, UniqueInbox, UniqueEvidence, ForeignKeys;
    assert Effect(t, InsertInbox(n)) == t.(inbox := t.inbox[n.id := n]);
    if n.id !in t.inbox {
      InboxInsertKeeps(t, n);
      InboxInsertUniqueIff(t, n);
    }
  }

  lemma InboxInsertKeeps(t: Tables, n: Inbox)
    requires Consistent(t) && n.id !in t.inbox
    ensures var u := t.(inbox := t.inbox[n.id := n]);
      && KeysMatch(u) && UniqueReconciliations(u) && UniqueEvidence(u)
      && (RowChecks(u) <==> InboxCheck(n))
      && (ForeignKeys(u) <==>
            && (n.reconciliationId.Some? ==> n.reconciliationId.value in t.recons)
            && (n.requeueAuditId.Some? ==> n.requeueAuditId.value in t.audits))
  {
    hide ReconciliationCheck, InboxCheck, UniqueInbox, ForeignKeys;
    var u := t.(inbox := t.inbox[n.id := n]);
    assert u.inbox[n.id] == n;
    assert forall k | k in t.inbox :: k != n.id && u.inbox[k] == t.inbox[k];
    InboxForeignKeys(t, n.id, n);
  }

  lemma InboxForeignKeys(t: Tables, id: string, n: Inbox)
    requires ForeignKeys(t)
    ensures ForeignKeys(t.(inbox := t.inbox[id := n])) <==>
      && (n.reconciliationId.Some? ==> n.reconciliationId.value in t.recons)
      && (n.requeueAuditId.Some? ==> n.requeueAuditId.value in t.audits)
  {
    var u := t.(inbox := t.inbox[id := n]);
    assert u.inbox[id] == n;
    assert forall k | k in t.inbox && k != id :: u.inbox[k] == t.inbox[k];
  }

  lemma InboxInsertUniqueIff(t: Tables, n: Inbox)
    requires UniqueInbox(t) && n.id !in t.inbox
    ensures UniqueInbox(t.(inbox := t.inbox[n.id := n])) <==>
      && (forall k | k in t.inbox :: t.inbox[k].providerId != n.providerId || t.inbox[k].dedupKey != n.dedupKey)
      && (forall k | k in t.inbox && k != n.id && t.inbox[k].claim.Some? && n.claim.Some? ::
            t.inbox[k].claim.value.token != n.claim.value.token)
  {
    var u := t.(inbox := t.inbox[n.id := n]);
    assert u.inbox[n.id] == n;
    assert forall k | k in t.inbox :: k != n.id && u.inbox[k] == t.inbox[k];
  }

  lemma InboxDeleteAcceptedIff(t: Tables, id: string)
    requires Consistent(t)
    ensures Accepted(t, DeleteInbox(id)) <==>
      id in t.inbox && forall e | e in t.evidence :: t.evidence[e].inboxId != Some(id)
  {
    hide KeysMatch, RowChecks, UniqueReconciliations, UniqueInbox, UniqueEvidence, ForeignKeys;
    assert Effect(t, DeleteInbox(id)) == t.(inbox := t.inbox - {id});
    InboxDeleteKeeps(t, id);
  }

  lemma InboxDeleteKeeps(t: Tables, id: string)
    requires Consistent(t)
    ensures var u := t.(inbox := t.inbox - {id});
      && KeysMatch(u) && RowChecks(u) && UniqueReconciliations(u) && UniqueInbox(u) && UniqueEvidence(u)
      && (ForeignKeys(u) <==> forall e | e in t.evidence :: t.evidence[e].inboxId != Some(id))
  {
    hide ReconciliationCheck, InboxCheck;
  }

  // ----- evidence and audit rows -----

  /** Evidence is only ever added: one row for a reconciliation's key, one for an inbox row. */
  lemma EvidenceInsertAcceptedIff(t: Tables, e: Evidence)
    requires Consistent(t)
    ensures Accepted(t, InsertEvidence(e)) <==>
      && e.id !in t.evidence && e.reconciliationId in t.recons
      && (e.inboxId.Some? ==> e.inboxId.value in t.inbox)
      && forall k | k in t.evidence ::
           && (t.evidence[k].reconciliationId != e.reconciliationId || t.evidence[k].dedupKey != e.dedupKey)
           && (e.inboxId.Some? ==> t.evidence[k].inboxId != e.inboxId)
  {
    hide KeysMatch, RowChecks, UniqueReconciliations, UniqueInbox, UniqueEvidence, ForeignKeys;
    assert Effect(t, InsertEvidence(e)) == t.(evidence := t.evidence[e.id := e]);
    if e.id !in t.evidence {
      EvidenceInsertKeeps(t, e);
      EvidenceInsertUniqueIff(t, e);
    }
  }

  lemma EvidenceInsertUniqueIff(t: Tables, e: Evidence)
    requires UniqueEvidence(t) && e.id !in t.evidence
    ensures UniqueEvidence(t.(evidence := t.evidence[e.id := e])) <==>
      forall k | k in t.evidence ::
        && (t.evidence[k].reconciliationId != e.reconciliationId || t.evidence[k].dedupKey != e.dedupKey)
        && (e.inboxId.Some? ==> t.evidence[k].inboxId != e.inboxId)
  {
    var u := t.(evidence := t.evidence[e.id := e]);
    assert u.evidence[e.id] == e;
    assert forall k | k in t.evidence :: k != e.id && u.evidence[k] == t.evidence[k];
  }

  lemma EvidenceInsertKeeps(t: Tables, e: Evidence)
    requires Consistent(t) && e.id !in t.evidence
    ensures var u := t.(evidence := t.evidence[e.id := e]);
      && KeysMatch(u) && RowChecks(u) && UniqueReconciliations(u) && UniqueInbox(u)
      && (ForeignKeys(u) <==> e.reconciliationId in t.recons && (e.inboxId.Some? ==> e.inboxId.value in t.inbox))
  {
    hide ReconciliationCheck, InboxCheck, UniqueEvidence, ForeignKeys;
    var u := t.(evidence := t.evidence[e.id := e]);
    assert u.evidence[e.id] == e;
    assert forall k | k in t.evidence :: k != e.id && u.evidence[k] == t.evidence[k];
    EvidenceForeignKeys(t, e);
  }

  lemma EvidenceForeignKeys(t: Tables, e: Evidence)
    requires ForeignKeys(t) && e.id !in t.evidence
    ensures ForeignKeys(t.(evidence := t.evidence[e.id := e])) <==>
      e.reconciliationId in t.recons && (e.inboxId.Some? ==> e.inboxId.value in t.inbox)
  {
    var u := t.(evidence := t.evidence[e.id := e]);
    assert u.evidence[e.id] == e;
    assert forall k | k in t.evidence :: k != e.id && u.evidence[k] == t.evidence[k];
  }

  lemma EvidenceIsImmutable(t: Tables, id: string, e: Evidence)
    ensures !Accepted(t, UpdateEvidence(id, e)) && !Accepted(t, DeleteEvidence(id))
  {
  }

  /** No guard protects the audit table, but a row that a requeue names cannot go. */
  lemma AuditChangeAcceptedIff(t: Tables, id: string, a: Audit)
    requires Consistent(t)
    ensures Accepted(t, PutAudit(a))
    ensures Accepted(t, DeleteAudit(id)) <==>
      && (forall r | r in t.recons :: t.recons[r].requeueAuditId != Some(id))
      && (forall q | q in t.inbox :: t.inbox[q].requeueAuditId != Some(id))
  {
    hide KeysMatch, RowChecks, UniqueReconciliations, UniqueInbox, UniqueEvidence, ForeignKeys;
    assert Effect(t, DeleteAudit(id)) == t.(audits := t.audits - {id});
    assert Effect(t, PutAudit(a)) == t.(audits := t.audits[a.id := a]);
    AuditKeys(t, id);
    AuditTableAlone(t, t.audits - {id});
    AuditTableAlone(t, t.audits[a.id := a]);
  }

  lemma AuditKeys(t: Tables, id: string)
    requires Consistent(t)
    ensures Known(t, t.audits - {id}) <==>
      && (forall r | r in t.recons :: t.recons[r].requeueAuditId != Some(id))
      && (forall q | q in t.inbox :: t.inbox[q].requeueAuditId != Some(id))
    ensures forall a: Audit :: Known(t, t.audits[a.id := a])
    ensures forall k | k in t.audits :: t.audits[k].id == k
  {
    hide RowChecks, UniqueReconciliations, UniqueInbox, UniqueEvidence;
  }

  /** Every audit id that a row carries is there. */
  ghost predicate Known(t: Tables, audits: map<string, Audit>) {
    && (forall r | r in t.recons :: t.recons[r].requeueAuditId.Some? ==> t.recons[r].requeueAuditId.value in audits)
    && (forall q | q in t.inbox :: t.inbox[q].requeueAuditId.Some? ==> t.inbox[q].requeueAuditId.value in audits)
  }

  lemma AuditTableAlone(t: Tables, audits: map<string, Audit>)
    requires Consistent(t) && forall a | a in audits :: audits[a].id == a
    ensures Consistent(t.(audits := audits)) <==> Known(t, audits)
  {
    hide ReconciliationCheck, InboxCheck;
    var u := t.(audits := audits);
    assert KeysMatch(u) && RowChecks(u) && UniqueReconciliations(u) && UniqueInbox(u) && UniqueEvidence(u);
  }
}
