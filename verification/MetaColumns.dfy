/**
 What the evidence half of migration 0030 reads and writes, column by column: the tables on
 which each of its two procedures finishes, and every column of every row they write.
 */
module MetaColumns {
  import opened Common
  import opened MetaTables
  import opened MetaBackfill
  import opened MetaCorrelation
  import opened MetaOutcome
  import opened MetaSettlement

  /** The one outbox message of an exact attempt. */
  ghost predicate ExactAttemptMessage(t: Tables, outbox: map<string, Outbox>, r: string) {
    && r in t.recons && t.recons[r].outboxId in outbox
    && var o := outbox[t.recons[r].outboxId];
    && o.destination == "meta_whatsapp_cloud" && o.actionType == "production_conversation_reply"
    && o.attemptCount == 1 && o.retryPolicy == Some("NONE") && o.providerId == Some(t.recons[r].providerId)
  }

  // ----- the recovery of quarantined inbox rows -----

  /** Inbox row `q` is parked because a reconciliation of its provider id, such as `r`, was not there yet. */
  ghost predicate Awaits(t: Tables, q: string, r: string) {
    && q in t.inbox && r in t.recons && t.recons[r].providerId == t.inbox[q].providerId
    && t.inbox[q].state == InboxQuarantined
    && t.inbox[q].lastErrorCode == Some("PRODUCTION_META_RECONCILIATION_NOT_FOUND")
  }

  /** Evidence row `e` of reconciliation `r` has the key of inbox row `q`. */
  ghost predicate Bears(t: Tables, e: string, q: string, r: string) {
    && e in t.evidence && q in t.inbox
    && t.evidence[e].reconciliationId == r && t.evidence[e].dedupKey == t.inbox[q].dedupKey
  }

  /** Every evidence row that is linked to `q`, or bears its key, is its own: same reconciliation, key and event. */
  ghost predicate EvidenceAgrees(t: Tables, q: string, r: string) {
    q in t.inbox && forall e | e in t.evidence && (t.evidence[e].inboxId == Some(q) || Bears(t, e, q, r)) ::
      && t.evidence[e].reconciliationId == r && t.evidence[e].dedupKey == t.inbox[q].dedupKey
      && t.evidence[e].event == t.inbox[q].event
      && (t.evidence[e].inboxId.None? || t.evidence[e].inboxId == Some(q))
  }

  ghost predicate NoneBears(t: Tables, q: string, r: string) {
    forall e :: !Bears(t, e, q, r)
  }

  ghost predicate MayCorrelate(t: Tables, outbox: map<string, Outbox>, q: string, r: string,
        stableId: (string, string) -> string)
  {
    && ExactAttemptMessage(t, outbox, r)
    && t.recons[r].tenantId == outbox[t.recons[r].outboxId].tenantId
    && t.recons[r].state == Pending && t.recons[r].operational == Active
    && EvidenceAgrees(t, q, r)
    && stableId("audit", "0030:" + q) !in t.audits
    && (NoneBears(t, q, r) ==> stableId("metaevidence", q) !in t.evidence)
  }

  /**
   The recovery finishes exactly when no valid parked callback is about a terminal reconciliation,
   every waiting row may be correlated, and the ids it mints are apart.
   */
  lemma ClearIff(t: Tables, outbox: map<string, Outbox>, stableId: (string, string) -> string)
    requires Consistent(t) && OutboxKnown(t, outbox)
    ensures Clear(t, outbox, stableId) <==>
      && (forall q, r | q in t.inbox && r in t.recons && t.recons[r].providerId == t.inbox[q].providerId ::
            t.inbox[q].state == InboxQuarantined && t.inbox[q].event.valid ==> t.recons[r].state == Pending)
      && (forall q, r | Awaits(t, q, r) :: MayCorrelate(t, outbox, q, r, stableId))
      && forall q, r, p, s | Awaits(t, q, r) && Awaits(t, p, s) && q != p ::
           && stableId("audit", "0030:" + q) != stableId("audit", "0030:" + p)
           && (NoneBears(t, q, r) && NoneBears(t, p, s) ==> stableId("metaevidence", q) != stableId("metaevidence", p))
  {
    hide Clear, Ready, Free, Differ, UniqueReconciliations, UniqueInbox, UniqueEvidence, ForeignKeys, RowChecks,
         KeysMatch;
    hide Awaits, MayCorrelate, Consistent, NoneBears, EvidenceAgrees;
    if Clear(t, outbox, stableId) {
      ClearIsSaid(t, outbox, stableId);
    }
    if Said(t, outbox, stableId) {
      SaidIsClear(t, outbox, stableId);
    }
  }

  ghost predicate Said(t: Tables, outbox: map<string, Outbox>, stableId: (string, string) -> string) {
    && (forall q, r | q in t.inbox && r in t.recons && t.recons[r].providerId == t.inbox[q].providerId ::
          t.inbox[q].state == InboxQuarantined && t.inbox[q].event.valid ==> t.recons[r].state == Pending)
    && (forall q, r | Awaits(t, q, r) :: MayCorrelate(t, outbox, q, r, stableId))
    && forall q, r, p, s | Awaits(t, q, r) && Awaits(t, p, s) && q != p :: IdsApart(t, q, r, p, s, stableId)
  }

  ghost predicate IdsApart(t: Tables, q: string, r: string, p: string, s: string,
        stableId: (string, string) -> string)
  {
    && stableId("audit", "0030:" + q) != stableId("audit", "0030:" + p)
    && (NoneBears(t, q, r) && NoneBears(t, p, s) ==> stableId("metaevidence", q) != stableId("metaevidence", p))
  }

  /** The match of a waiting row whose evidence agrees. */
  lemma MatchFor(t: Tables, q: string, r: string) returns (m: Match)
    requires KeysMatch(t) && UniqueEvidence(t) && Awaits(t, q, r) && EvidenceAgrees(t, q, r)
    requires t.recons[r].state == Pending && t.recons[r].operational == Active
    ensures Exact(t, m) && m.row == t.inbox[q] && m.recon == t.recons[r]
    ensures m.row.id == q && m.recon.id == r && (m.evidence.None? <==> NoneBears(t, q, r))
  {
    if e :| Bears(t, e, q, r) {
      m := Match(t.inbox[q], t.recons[r], Some(t.evidence[e]));
      forall f | f in t.evidence && f != e
        ensures !Matches(t.evidence[f], m.row, m.recon)
      {
        assert Bears(t, e, q, r);
      }
      assert Identical(t.evidence[e], m.row, m.recon);
    } else {
      m := Match(t.inbox[q], t.recons[r], None);
      forall f | f in t.evidence
        ensures !Matches(t.evidence[f], m.row, m.recon)
      {
        assert !Bears(t, f, q, r);
      }
    }
  }

  /** What a match says, in columns. */
  lemma MatchColumns(t: Tables, m: Match)
    requires KeysMatch(t) && Ready(t, m)
    ensures Awaits(t, m.row.id, m.recon.id) && EvidenceAgrees(t, m.row.id, m.recon.id)
    ensures t.recons[m.recon.id].state == Pending && t.recons[m.recon.id].operational == Active
    ensures m.row == t.inbox[m.row.id] && (m.evidence.None? <==> NoneBears(t, m.row.id, m.recon.id))
    ensures m.evidence.Some? ==> var e := m.evidence.value.id;
      && Bears(t, e, m.row.id, m.recon.id) && t.evidence[e] == m.evidence.value
      && (t.evidence[e].inboxId.None? || t.evidence[e].inboxId == Some(m.row.id))
      && forall f | Bears(t, f, m.row.id, m.recon.id) :: f == e
  {
    var q, r := m.row.id, m.recon.id;
    forall f | f in t.evidence
      ensures Matches(t.evidence[f], m.row, m.recon) <==> t.evidence[f].inboxId == Some(q) || Bears(t, f, q, r)
    {
    }
    if m.evidence.Some? {
      assert Bears(t, m.evidence.value.id, q, r);
    }
  }

  lemma ClearIsSaid(t: Tables, outbox: map<string, Outbox>, stableId: (string, string) -> string)
    requires Consistent(t) && OutboxKnown(t, outbox) && Clear(t, outbox, stableId)
    ensures Said(t, outbox, stableId)
  {
    hide Ready, UniqueInbox, UniqueEvidence, ForeignKeys, RowChecks, KeysMatch;
    hide EvidenceAgrees, NoneBears, HasMatch;
    forall q, r | Awaits(t, q, r)
      ensures MayCorrelate(t, outbox, q, r, stableId)
      ensures exists m: Match :: Ready(t, m) && m.row.id == q && (m.evidence.None? <==> NoneBears(t, q, r))
    {
      var m := ReadyFor(t, outbox, q, r, stableId);
      assert Ready(t, m);
    }
    forall q, r, p, s | Awaits(t, q, r) && Awaits(t, p, s) && q != p
      ensures IdsApart(t, q, r, p, s, stableId)
    {
      var m := ReadyFor(t, outbox, q, r, stableId);
      var o := ReadyFor(t, outbox, p, s, stableId);
      assert Differ(m, o, stableId);
    }
  }

  lemma ReadyFor(t: Tables, outbox: map<string, Outbox>, q: string, r: string, stableId: (string, string) -> string)
      returns (m: Match)
    requires KeysMatch(t) && UniqueReconciliations(t) && Clear(t, outbox, stableId) && Awaits(t, q, r)
    ensures Ready(t, m) && m.row.id == q && m.recon.id == r && EvidenceAgrees(t, q, r)
    ensures m.evidence.None? <==> NoneBears(t, q, r)
    ensures t.recons[r].state == Pending && t.recons[r].operational == Active
  {
    hide Ready, TerminalConflict, ScopeConflict, Free, Differ, NoneBears, EvidenceAgrees;
    assert Recoverable(t, q);
    assert HasMatch(t, q);
    m :| m.row.id == q && Ready(t, m);
    MatchColumns(t, m);
  }

  lemma SaidIsClear(t: Tables, outbox: map<string, Outbox>, stableId: (string, string) -> string)
    requires Consistent(t) && Said(t, outbox, stableId)
    ensures Clear(t, outbox, stableId)
  {
    hide Ready, UniqueInbox, UniqueEvidence, UniqueReconciliations, ForeignKeys, RowChecks, KeysMatch;
    hide EvidenceAgrees, NoneBears;
    forall q | Recoverable(t, q)
      ensures HasMatch(t, q)
    {
      var r :| r in t.recons && t.recons[r].providerId == t.inbox[q].providerId;
      assert Awaits(t, q, r);
      var m := MatchFor(t, q, r);
    }
    forall m | Ready(t, m)
      ensures Free(t, m, stableId)
    {
      MatchColumns(t, m);
    }
    forall m, o | Ready(t, m) && Ready(t, o) && m.row.id != o.row.id
      ensures Differ(m, o, stableId)
    {
      MatchColumns(t, m);
      MatchColumns(t, o);
      assert IdsApart(t, m.row.id, m.recon.id, o.row.id, o.recon.id, stableId);
    }
    assert !TerminalConflict(t);
    NoScopeConflict(t, outbox, stableId);
  }

  lemma NoScopeConflict(t: Tables, outbox: map<string, Outbox>, stableId: (string, string) -> string)
    requires Said(t, outbox, stableId)
    ensures !ScopeConflict(t, outbox)
  {
    hide EvidenceAgrees, NoneBears;
    forall q, r | q in t.inbox && r in t.recons && t.recons[r].providerId == t.inbox[q].providerId
      && NotFound(t.inbox[q])
      ensures Awaits(t, q, r) && MayCorrelate(t, outbox, q, r, stableId)
    {
      assert Awaits(t, q, r);
    }
  }

  /**
   The tables after the recovery. Every waiting row is correlated, its reconciliation is due at
   once, it has its evidence, admissible when the callback came in by the deadline, and an audit
   row records it; everything else is as it was.
   */
  ghost predicate RecoveryColumns(t0: Tables, t: Tables, now: Instant, stableId: (string, string) -> string) {
    && InboxColumns(t0, t)
    && ReconciliationColumns(t0, t, now)
    && EvidenceColumns(t0, t, stableId)
    && AuditColumns(t0, t, stableId)
  }

  ghost predicate InboxColumns(t0: Tables, t: Tables) {
    && t.inbox.Keys == t0.inbox.Keys
    && (forall q, r | Awaits(t0, q, r) ::
          t.inbox[q] == t0.inbox[q].(state := InboxCorrelated, reconciliationId := Some(r),
            correlatedAt := Some(t0.recons[r].acceptedAt), updatedAt := t0.recons[r].acceptedAt,
            lastErrorCode := None, quarantinedAt := None))
    && forall q | q in t0.inbox && forall r :: !Awaits(t0, q, r) :: t.inbox[q] == t0.inbox[q]
  }

  /** The due time is the earlier one of what it was and now. */
  ghost predicate ReconciliationColumns(t0: Tables, t: Tables, now: Instant) {
    && t.recons.Keys == t0.recons.Keys
    && forall r | r in t0.recons ::
         if exists q :: Awaits(t0, q, r) then
           && t.recons[r] == t0.recons[r].(nextReconcileAt := t.recons[r].nextReconcileAt, updatedAt := now)
           && t.recons[r].nextReconcileAt <= now && t.recons[r].nextReconcileAt <= t0.recons[r].nextReconcileAt
           && t.recons[r].nextReconcileAt in {now, t0.recons[r].nextReconcileAt}
         else
           t.recons[r] == t0.recons[r]
  }

  ghost predicate EvidenceColumns(t0: Tables, t: Tables, stableId: (string, string) -> string) {
    && (forall e | e in t0.evidence ::
          && e in t.evidence
          && (forall q, r | Awaits(t0, q, r) && Bears(t0, e, q, r) ::
                t.evidence[e] == t0.evidence[e].(inboxId := Some(q)))
          && ((forall q, r | Awaits(t0, q, r) :: !Bears(t0, e, q, r)) ==> t.evidence[e] == t0.evidence[e]))
    && (forall q, r | Awaits(t0, q, r) && NoneBears(t0, q, r) :: Inserted(t0, t, stableId("metaevidence", q), q, r))
    && forall e | e in t.evidence && e !in t0.evidence ::
         exists q, r :: Awaits(t0, q, r) && NoneBears(t0, q, r) && e == stableId("metaevidence", q)
  }

  /** The evidence row made for inbox row `q` and its reconciliation `r`. */
  ghost predicate Inserted(t0: Tables, t: Tables, e: string, q: string, r: string) {
    && q in t0.inbox && r in t0.recons
    && e !in t0.evidence && e in t.evidence
    && t.evidence[e].id == e
    && t.evidence[e].reconciliationId == r
    && t.evidence[e].inboxId == Some(q)
    && t.evidence[e].dedupKey == t0.inbox[q].dedupKey
    && t.evidence[e].event == t0.inbox[q].event
    && t.evidence[e].receivedAt == t0.inbox[q].receivedAt
    && t.evidence[e].createdAt == t0.recons[r].acceptedAt
    && (t.evidence[e].admissible <==> t0.inbox[q].receivedAt <= t0.recons[r].deadlineAt)
  }

  ghost predicate AuditColumns(t0: Tables, t: Tables, stableId: (string, string) -> string) {
    && (forall a | a in t0.audits :: a in t.audits && t.audits[a] == t0.audits[a])
    && (forall q, r | Awaits(t0, q, r) :: var a := stableId("audit", "0030:" + q);
          && a !in t0.audits && a in t.audits
          && t.audits[a] == Audit(a, "production_meta_callback_exact_acceptance_requeued", Some("QUARANTINED"),
               Some("CORRELATED"), "meta_callback_reconciler_v2_migration", Some(q), Some(r)))
    && forall a | a in t.audits && a !in t0.audits ::
         exists q, r :: Awaits(t0, q, r) && a == stableId("audit", "0030:" + q)
  }

  lemma SettlementColumns(t0: Tables, t: Tables, outbox: map<string, Outbox>, now: Instant,
        stableId: (string, string) -> string)
    requires Consistent(t0) && Clear(t0, outbox, stableId) && Settlement(t0, t, now, stableId)
    ensures RecoveryColumns(t0, t, now, stableId)
  {
    hide RowChecks, UniqueReconciliations, UniqueInbox, UniqueEvidence, ForeignKeys, KeysMatch;
    hide Clear, SettledInbox, SettledReconciliations, SettledEvidence, SettledAudits;
    hide InboxColumns, ReconciliationColumns, EvidenceColumns, AuditColumns;
    InboxSaid(t0, t, outbox, stableId);
    ReconciliationsSaid(t0, t, now, outbox, stableId);
    EvidenceSaid(t0, t, outbox, stableId);
    AuditsSaid(t0, t, outbox, stableId);
  }

  /** Where nothing blocks, the waiting rows are the rows that have a match. */
  lemma ExactFor(t: Tables, outbox: map<string, Outbox>, q: string, r: string, stableId: (string, string) -> string)
      returns (m: Match)
    requires Consistent(t) && Clear(t, outbox, stableId) && Awaits(t, q, r)
    ensures Exact(t, m) && m.row == t.inbox[q] && m.recon == t.recons[r] && m.row.id == q && m.recon.id == r
    ensures Free(t, m, stableId) && (m.evidence.None? <==> NoneBears(t, q, r))
    ensures m.evidence.Some? ==> Bears(t, m.evidence.value.id, q, r)
  {
    hide RowChecks, UniqueReconciliations, UniqueInbox, ForeignKeys, Ready, Free, Differ, NoneBears, EvidenceAgrees;
    hide TerminalConflict, ScopeConflict, KeysMatch, UniqueEvidence, Bears;
    var o := ReadyFor(t, outbox, q, r, stableId);
    m := MatchFor(t, q, r);
    MatchColumns(t, m);
  }

  lemma InboxSaid(t0: Tables, t: Tables, outbox: map<string, Outbox>, stableId: (string, string) -> string)
    requires Consistent(t0) && Clear(t0, outbox, stableId) && SettledInbox(t0, t)
    ensures InboxColumns(t0, t)
  {
    hide Consistent, RowChecks, UniqueReconciliations, UniqueInbox, UniqueEvidence, ForeignKeys, KeysMatch, Clear;
    hide Awaits, Exact, Bears, NoneBears, EvidenceAgrees;
    ConsistentParts(t0);
    forall q, r | Awaits(t0, q, r)
      ensures q in t0.inbox && r in t0.recons
      ensures t.inbox[q] == CorrelatedInbox(t0.inbox[q], r, t0.recons[r].acceptedAt)
    {
      var m := ExactFor(t0, outbox, q, r, stableId);
      AwaitsKeys(t0, q, r);
    }
    forall q | q in t0.inbox && forall r :: !Awaits(t0, q, r)
      ensures t.inbox[q] == t0.inbox[q]
    {
      if m: Match :| Exact(t0, m) && m.row.id == q {
        ExactAwaits(t0, m);
      }
    }
  }

  lemma AwaitsKeys(t: Tables, q: string, r: string)
    requires Awaits(t, q, r)
    ensures q in t.inbox && r in t.recons
  {
  }

  lemma ExactAwaits(t: Tables, m: Match)
    requires KeysMatch(t) && Exact(t, m)
    ensures Awaits(t, m.row.id, m.recon.id) && (m.evidence.None? <==> NoneBears(t, m.row.id, m.recon.id))
    ensures m.row == t.inbox[m.row.id] && m.recon == t.recons[m.recon.id]
    ensures m.evidence.Some? ==> var e := m.evidence.value.id;
      && Bears(t, e, m.row.id, m.recon.id) && t.evidence[e] == m.evidence.value
      && forall f | Bears(t, f, m.row.id, m.recon.id) :: f == e
  {
    hide KeysMatch, Awaits, NoneBears, Bears, Ready, EvidenceAgrees;
    MatchColumns(t, m);
  }

  lemma ReconciliationsSaid(t0: Tables, t: Tables, now: Instant, outbox: map<string, Outbox>,
        stableId: (string, string) -> string)
    requires Consistent(t0) && Clear(t0, outbox, stableId) && SettledReconciliations(t0, t, now)
    ensures ReconciliationColumns(t0, t, now)
  {
    hide Consistent, RowChecks, UniqueReconciliations, UniqueInbox, UniqueEvidence, ForeignKeys, KeysMatch, Clear;
    hide Awaits, Exact, Bears, NoneBears, EvidenceAgrees;
    ConsistentParts(t0);
    forall r | r in t0.recons
      ensures IsDue(t0, r) <==> exists q :: Awaits(t0, q, r)
    {
      if m: Match :| Exact(t0, m) && m.recon.id == r {
        ExactAwaits(t0, m);
      }
      if q :| Awaits(t0, q, r) {
        var m := ExactFor(t0, outbox, q, r, stableId);
      }
    }
  }

  lemma EvidenceSaid(t0: Tables, t: Tables, outbox: map<string, Outbox>, stableId: (string, string) -> string)
    requires Consistent(t0) && Clear(t0, outbox, stableId) && SettledEvidence(t0, t, stableId)
    ensures EvidenceColumns(t0, t, stableId)
  {
    hide Consistent, RowChecks, UniqueReconciliations, UniqueInbox, UniqueEvidence, ForeignKeys, KeysMatch, Clear;
    hide Awaits, Exact, Bears, NoneBears, EvidenceAgrees, IsWritten;
    ConsistentParts(t0);
    forall q, r | Awaits(t0, q, r) && NoneBears(t0, q, r)
      ensures Inserted(t0, t, stableId("metaevidence", q), q, r)
    {
      var m := ExactFor(t0, outbox, q, r, stableId);
      AwaitsKeys(t0, q, r);
      assert Holds(t, WrittenEvidence(m, stableId));
    }
    forall e, q, r | e in t0.evidence && Awaits(t0, q, r) && Bears(t0, e, q, r)
      ensures e in t.evidence && t.evidence[e] == t0.evidence[e].(inboxId := Some(q))
    {
      BearingIsLinked(t0, t, outbox, stableId, e, q, r);
    }
    forall e | e in t0.evidence && forall q, r | Awaits(t0, q, r) :: !Bears(t0, e, q, r)
      ensures e in t.evidence && t.evidence[e] == t0.evidence[e]
    {
      if IsWritten(t0, e, stableId) {
        var m := WriterOf(t0, e, stableId);
        NewIsFree(t0, outbox, m, stableId);
      }
    }
    forall e | e in t.evidence && e !in t0.evidence
      ensures exists q, r :: Awaits(t0, q, r) && NoneBears(t0, q, r) && e == stableId("metaevidence", q)
    {
      var m := WriterOf(t0, e, stableId);
    }
  }

  lemma BearingIsLinked(t0: Tables, t: Tables, outbox: map<string, Outbox>, stableId: (string, string) -> string,
        e: string, q: string, r: string)
    requires Consistent(t0) && Clear(t0, outbox, stableId) && SettledEvidence(t0, t, stableId)
    requires Awaits(t0, q, r) && Bears(t0, e, q, r)
    ensures e in t0.evidence && e in t.evidence && t.evidence[e] == t0.evidence[e].(inboxId := Some(q))
  {
    hide Consistent, RowChecks, UniqueReconciliations, UniqueInbox, UniqueEvidence, ForeignKeys, KeysMatch, Clear;
    hide Awaits, Exact, IsWritten, EvidenceAgrees;
    ConsistentParts(t0);
    var m := ExactFor(t0, outbox, q, r, stableId);
    ExactAwaits(t0, m);
    assert Holds(t, WrittenEvidence(m, stableId));
  }

  /** The match whose evidence row `e` is, with what it says of it. */
  lemma WriterOf(t: Tables, e: string, stableId: (string, string) -> string) returns (m: Match)
    requires KeysMatch(t) && IsWritten(t, e, stableId)
    ensures Exact(t, m) && Awaits(t, m.row.id, m.recon.id) && WrittenEvidence(m, stableId).id == e
    ensures m.evidence.None? ==> NoneBears(t, m.row.id, m.recon.id) && e == stableId("metaevidence", m.row.id)
    ensures m.evidence.Some? ==> Bears(t, e, m.row.id, m.recon.id)
    ensures e !in t.evidence ==> m.evidence.None?
  {
    hide KeysMatch, Awaits, NoneBears, Ready, EvidenceAgrees, Exact;
    m :| Exact(t, m) && WrittenEvidence(m, stableId).id == e;
    ExactAwaits(t, m);
  }

  lemma NewIsFree(t: Tables, outbox: map<string, Outbox>, m: Match, stableId: (string, string) -> string)
    requires Clear(t, outbox, stableId) && Exact(t, m)
    ensures m.evidence.None? ==> stableId("metaevidence", m.row.id) !in t.evidence
    ensures stableId("audit", "0030:" + m.row.id) !in t.audits
  {
    hide Ready, TerminalConflict, ScopeConflict, HasMatch, Recoverable, Differ;
  }

  lemma AuditsSaid(t0: Tables, t: Tables, outbox: map<string, Outbox>, stableId: (string, string) -> string)
    requires Consistent(t0) && Clear(t0, outbox, stableId) && SettledAudits(t0, t, stableId)
    ensures AuditColumns(t0, t, stableId)
  {
    hide Consistent, RowChecks, UniqueReconciliations, UniqueInbox, UniqueEvidence, ForeignKeys, KeysMatch, Clear;
    hide Awaits, Exact, Bears, NoneBears, EvidenceAgrees;
    ConsistentParts(t0);
    forall q, r | Awaits(t0, q, r)
      ensures var a := stableId("audit", "0030:" + q);
        && a !in t0.audits && a in t.audits
        && t.audits[a] == Audit(a, "production_meta_callback_exact_acceptance_requeued", Some("QUARANTINED"),
             Some("CORRELATED"), "meta_callback_reconciler_v2_migration", Some(q), Some(r))
    {
      var m := ExactFor(t0, outbox, q, r, stableId);
      assert Records(t, m, stableId);
    }
    forall a | IsRecorded(t0, a, stableId)
      ensures a !in t0.audits
      ensures exists q, r :: Awaits(t0, q, r) && a == stableId("audit", "0030:" + q)
    {
      var m: Match :| Exact(t0, m) && AuditIdFor(m, stableId) == a;
      ExactAwaits(t0, m);
      NewIsFree(t0, outbox, m, stableId);
    }
  }

  /**
   An evidence row that the recovery adds: its inbox row and its reconciliation are those of the
   start, and it is admissible exactly when the callback came in by the deadline.
   */
  lemma NewEvidence(t0: Tables, t: Tables, now: Instant, stableId: (string, string) -> string, e: string)
    requires KeysMatch(t0) && Settlement(t0, t, now, stableId) && e in t.evidence && e !in t0.evidence
    ensures exists q, r :: Awaits(t0, q, r) && Inserted(t0, t, e, q, r)
  {
    hide KeysMatch, Awaits, Exact, SettledInbox, SettledReconciliations, SettledAudits, EvidenceAgrees, IsWritten,
         NoneBears, Bears;
    var m := WriterOf(t0, e, stableId);
    ExactAwaits(t0, m);
    AwaitsKeys(t0, m.row.id, m.recon.id);
    assert Holds(t, WrittenEvidence(m, stableId));
    assert Inserted(t0, t, e, m.row.id, m.recon.id);
  }

  // ----- the backfill of historical evidence -----

  /** Inbox row `q` has the provider id and the key of evidence row `e`. */
  ghost predicate StandsFor(t: Tables, q: string, e: string) {
    && e in t.evidence && t.evidence[e].reconciliationId in t.recons && q in t.inbox
    && t.inbox[q].providerId == t.recons[t.evidence[e].reconciliationId].providerId
    && t.inbox[q].dedupKey == t.evidence[e].dedupKey
  }

  /** It reports the same event, and neither its state nor its reconciliation stands against it. */
  ghost predicate Fits(t: Tables, q: string, e: string) {
    && q in t.inbox && e in t.evidence
    && t.inbox[q].event == t.evidence[e].event
    && (t.inbox[q].state in {InboxPending, InboxCorrelated}
        || t.inbox[q].lastErrorCode == Some("PRODUCTION_META_RECONCILIATION_NOT_FOUND"))
    && t.inbox[q].reconciliationId in {None, Some(t.evidence[e].reconciliationId)}
  }

  ghost predicate Lone(t: Tables, e: string) {
    e in t.evidence && forall q :: !StandsFor(t, q, e)
  }

  ghost predicate Open(t: Tables, e: string) {
    e in t.evidence && t.evidence[e].inboxId.None?
  }

  ghost predicate MayBackfill(t: Tables, outbox: map<string, Outbox>, e: string,
        stableId: (string, string) -> string)
    requires e in t.evidence
  {
    && var r := t.evidence[e].reconciliationId;
    && ExactAttemptMessage(t, outbox, r) && t.recons[r].providerId != "" && t.recons[r].outboxId != ""
    && (Lone(t, e) ==> stableId("metainbox", e) !in t.inbox)
    && forall q | StandsFor(t, q, e) ::
         && (forall f | f in t.evidence :: t.evidence[f].inboxId != Some(q))
         && (!Fits(t, q, e) ==>
               && t.recons[r].state == Pending && t.recons[r].operational == Active
               && t.inbox[q].state == InboxPending && t.inbox[q].reconciliationId.None?
               && stableId("audit", "0030:ambiguous:" + e) !in t.audits)
  }

  /**
   The backfill finishes exactly when every unlinked evidence row may be linked or set aside, no two
   set the same reconciliation aside, and the ids it mints are apart.
   */
  lemma BackfillClearIff(t: Tables, outbox: map<string, Outbox>, stableId: (string, string) -> string)
    requires Consistent(t)
    ensures BackfillClear(t, outbox, stableId) <==>
      && (forall e | Open(t, e) :: MayBackfill(t, outbox, e, stableId))
      && forall e, f | Open(t, e) && Open(t, f) && e != f :: BackfilledApart(t, e, f, stableId)
  {
    hide KeysMatch, RowChecks, UniqueReconciliations, UniqueInbox, UniqueEvidence, ForeignKeys, Consistent;
    hide MayBackfill, BackfilledApart, ScanFine, LinkFineFor, ScanApart, LinkApartFor;
    ConsistentParts(t);
    forall e | Open(t, e)
      ensures MayBackfill(t, outbox, e, stableId) <==> ScanFine(t, outbox, e, stableId) && LinkFineFor(t, e, stableId)
    {
      MayBackfillIff(t, outbox, e, stableId);
    }
    forall e, f | Open(t, e) && Open(t, f)
      ensures BackfilledApart(t, e, f, stableId) <==> ScanApart(t, e, f, stableId) && LinkApartFor(t, e, f, stableId)
    {
      ApartIff(t, e, f, stableId);
    }
  }

  /** Two evidence rows set different reconciliations aside and mint different ids. */
  ghost predicate BackfilledApart(t: Tables, e: string, f: string, stableId: (string, string) -> string)
    requires e in t.evidence && f in t.evidence
  {
    && (forall q, p | StandsFor(t, q, e) && StandsFor(t, p, f) && !Fits(t, q, e) && !Fits(t, p, f) ::
          && t.evidence[e].reconciliationId != t.evidence[f].reconciliationId
          && stableId("audit", "0030:ambiguous:" + e) != stableId("audit", "0030:ambiguous:" + f))
    && (Lone(t, e) && Lone(t, f) ==> stableId("metainbox", e) != stableId("metainbox", f))
  }

  lemma ApartIff(t: Tables, e: string, f: string, stableId: (string, string) -> string)
    requires e in t.evidence && f in t.evidence
    ensures BackfilledApart(t, e, f, stableId) <==> ScanApart(t, e, f, stableId) && LinkApartFor(t, e, f, stableId)
  {
    hide StandsFor, Fits, Keyed, SameEvent;
    KeyedIsStanding(t);
    LoneIff(t, e);
    LoneIff(t, f);
  }

  lemma LoneIff(t: Tables, e: string)
    requires e in t.evidence
    ensures Lone(t, e) <==> NoInbox(t, e)
    ensures Lone(t, e) ==> !Ambiguous(t, e)
  {
    hide StandsFor, Fits, Keyed, SameEvent;
    KeyedIsStanding(t);
  }

  lemma KeyedIsStanding(t: Tables)
    ensures forall e, q :: Keyed(t, e, q) <==> StandsFor(t, q, e)
    ensures forall e, q | e in t.evidence && q in t.inbox :: SameEvent(t.evidence[e], t.inbox[q]) <==> Fits(t, q, e)
    ensures forall e, q :: StandsFor(t, q, e) ==> e in t.evidence && q in t.inbox
  {
  }

  lemma MayBackfillIff(t: Tables, outbox: map<string, Outbox>, e: string, stableId: (string, string) -> string)
    requires KeysMatch(t) && UniqueInbox(t) && Open(t, e)
    ensures MayBackfill(t, outbox, e, stableId) <==> ScanFine(t, outbox, e, stableId) && LinkFineFor(t, e, stableId)
  {
    hide StandsFor, Fits, Keyed, SameEvent, UniqueInbox;
    KeyedIsStanding(t);
    OneStands(t);
  }

  lemma OneStands(t: Tables)
    requires UniqueInbox(t)
    ensures forall e, q, p | StandsFor(t, q, e) && StandsFor(t, p, e) :: q == p
  {
  }

  /**
   The tables after the backfill. An unlinked evidence row is linked to the inbox row that stands for
   it, or to one made for it; when the inbox row does not fit, it is set aside with the reconciliation
   and an audit row records that. Everything else is as it was.
   */
  ghost predicate BackfillColumns(t0: Tables, t: Tables, now: Instant, stableId: (string, string) -> string) {
    && LinkColumns(t0, t, stableId)
    && StandingColumns(t0, t, now)
    && MadeColumns(t0, t, stableId)
    && AsideColumns(t0, t, now)
    && AsideAuditColumns(t0, t, stableId)
  }

  ghost predicate LinkColumns(t0: Tables, t: Tables, stableId: (string, string) -> string) {
    && t.evidence.Keys == t0.evidence.Keys
    && (forall e | e in t0.evidence && !Open(t0, e) :: t.evidence[e] == t0.evidence[e])
    && (forall e | Open(t0, e) && Lone(t0, e) ::
          t.evidence[e] == t0.evidence[e].(inboxId := Some(stableId("metainbox", e))))
    && forall e, q | Open(t0, e) && StandsFor(t0, q, e) ::
         t.evidence[e] == if Fits(t0, q, e) then t0.evidence[e].(inboxId := Some(q)) else t0.evidence[e]
  }

  ghost predicate StandingColumns(t0: Tables, t: Tables, now: Instant) {
    && t0.inbox.Keys <= t.inbox.Keys
    && (forall e, q | Open(t0, e) && StandsFor(t0, q, e) ::
          t.inbox[q] ==
            if !Fits(t0, q, e) then
              t0.inbox[q].(state := InboxQuarantined, quarantinedAt := Some(now), updatedAt := now,
                lastErrorCode := Some("PRODUCTION_META_HISTORICAL_EVIDENCE_INBOX_AMBIGUOUS"))
            else if t0.inbox[q].state == InboxPending then
              t0.inbox[q].(state := InboxCorrelated, reconciliationId := Some(t0.evidence[e].reconciliationId),
                correlatedAt := Some(t0.evidence[e].createdAt), updatedAt := t0.evidence[e].createdAt,
                lastErrorCode := None, quarantinedAt := None)
            else
              t0.inbox[q])
    && forall q | q in t0.inbox && forall e | Open(t0, e) :: !StandsFor(t0, q, e) :: t.inbox[q] == t0.inbox[q]
  }

  ghost predicate MadeColumns(t0: Tables, t: Tables, stableId: (string, string) -> string) {
    && (forall e | Open(t0, e) && Lone(t0, e) :: MadeFor(t0, t, stableId("metainbox", e), e))
    && forall q | q in t.inbox && q !in t0.inbox :: exists e ::
         Open(t0, e) && Lone(t0, e) && q == stableId("metainbox", e)
  }

  /** The inbox row made for evidence row `e`: correlated from the moment the evidence was written. */
  ghost predicate MadeFor(t0: Tables, t: Tables, q: string, e: string) {
    && e in t0.evidence && t0.evidence[e].reconciliationId in t0.recons
    && q !in t0.inbox && q in t.inbox
    && var made, row := t.inbox[q], t0.evidence[e];
    && made.id == q && made.providerId == t0.recons[row.reconciliationId].providerId
    && made.dedupKey == row.dedupKey && made.event == row.event && made.receivedAt == row.receivedAt
    && made.state == InboxCorrelated && made.reconciliationId == Some(row.reconciliationId)
    && made.correlatedAt == Some(row.createdAt) && made.createdAt == row.createdAt
    && made.updatedAt == row.createdAt && made.nextCorrelationAt == row.createdAt && made.attemptCount == 0
    && made.lastErrorCode.None? && made.quarantinedAt.None? && made.claim.None? && made.requeueAuditId.None?
  }

  ghost predicate SetsAside(t: Tables, e: string, q: string) {
    Open(t, e) && StandsFor(t, q, e) && !Fits(t, q, e)
  }

  ghost predicate AsideColumns(t0: Tables, t: Tables, now: Instant) {
    && t.recons.Keys == t0.recons.Keys
    && forall r | r in t0.recons ::
         t.recons[r] ==
           if exists e, q :: SetsAside(t0, e, q) && t0.evidence[e].reconciliationId == r then
             t0.recons[r].(operational := Quarantined, quarantinedAt := Some(now), lastFailureAt := Some(now),
               updatedAt := now, quarantineReason := Some("HISTORICAL_EVIDENCE_INBOX_AMBIGUOUS"),
               lastFailureCode := Some("HISTORICAL_EVIDENCE_INBOX_AMBIGUOUS"))
           else
             t0.recons[r]
  }

  ghost predicate AsideAuditColumns(t0: Tables, t: Tables, stableId: (string, string) -> string) {
    && (forall a | a in t0.audits :: a in t.audits && t.audits[a] == t0.audits[a])
    && (forall e, q | SetsAside(t0, e, q) :: var a := stableId("audit", "0030:ambiguous:" + e);
          && a !in t0.audits && a in t.audits
          && t.audits[a] == Audit(a, "production_meta_historical_evidence_quarantined", Some("ACTIVE"),
               Some("QUARANTINED"), "meta_callback_reconciler_v2_migration", Some(q),
               Some(t0.evidence[e].reconciliationId)))
    && forall a | a in t.audits && a !in t0.audits ::
         exists e, q :: SetsAside(t0, e, q) && a == stableId("audit", "0030:ambiguous:" + e)
  }

  lemma OutcomeColumns(t0: Tables, t: Tables, outbox: map<string, Outbox>, now: Instant,
        stableId: (string, string) -> string)
    requires Consistent(t0) && BackfillClear(t0, outbox, stableId) && Outcome(t0, t, now, stableId)
    ensures BackfillColumns(t0, t, now, stableId)
  {
    hide RowChecks, UniqueReconciliations, UniqueInbox, UniqueEvidence, ForeignKeys, KeysMatch, BackfillClear;
    hide OutcomeEvidence, OutcomeInbox, OutcomeReconciliations, OutcomeAudits;
    hide LinkColumns, StandingColumns, MadeColumns, AsideColumns, AsideAuditColumns;
    LinksSaid(t0, t, stableId);
    StandingSaid(t0, t, now, stableId);
    MadeSaid(t0, t, outbox, now, stableId);
    AsideSaid(t0, t, now);
    AsideAuditsSaid(t0, t, outbox, stableId);
  }

  /** How the row predicates of the backfill read in columns. */
  lemma BackfillWords(t: Tables)
    requires Consistent(t)
    ensures forall e, q :: Keyed(t, e, q) <==> StandsFor(t, q, e)
    ensures forall e, q :: Misfit(t, e, q) <==> StandsFor(t, q, e) && !Fits(t, q, e)
    ensures forall e :: Unlinked(t, e) <==> Open(t, e)
    ensures forall e :: Needs(t, e) <==> Open(t, e) && Lone(t, e)
    ensures forall e :: Ambiguous(t, e) <==> exists q :: Misfit(t, e, q)
    ensures forall e, q :: StandsFor(t, q, e) ==> e in t.evidence && q in t.inbox
    ensures forall e, q, p | StandsFor(t, q, e) && StandsFor(t, p, e) :: q == p
  {
    hide RowChecks, UniqueReconciliations, UniqueEvidence, KeysMatch, UniqueInbox, StandsFor, Fits, Keyed, SameEvent;
    KeyedIsStanding(t);
    OneStands(t);
  }

  lemma LinksSaid(t0: Tables, t: Tables, stableId: (string, string) -> string)
    requires Consistent(t0) && OutcomeEvidence(t0, t, stableId)
    ensures LinkColumns(t0, t, stableId)
  {
    hide Consistent, StandsFor, Fits, Keyed, SameEvent, Misfit, Ambiguous, Needs, Lone, Open, Unlinked;
    BackfillWords(t0);
    forall e, q | Open(t0, e) && StandsFor(t0, q, e)
      ensures Ambiguous(t0, e) <==> !Fits(t0, q, e)
    {
      if !Fits(t0, q, e) {
        assert Misfit(t0, e, q);
      }
    }
    OpenIsThere(t0);
  }

  lemma OpenIsThere(t: Tables)
    ensures forall e | Open(t, e) :: e in t.evidence
  {
  }

  lemma StandingSaid(t0: Tables, t: Tables, now: Instant, stableId: (string, string) -> string)
    requires Consistent(t0) && OutcomeInbox(t0, t, now, stableId)
    ensures StandingColumns(t0, t, now)
  {
    hide Consistent, StandsFor, Fits, Keyed, SameEvent, Misfit, Ambiguous, Needs, Lone, Open, Unlinked, InboxFor;
    BackfillWords(t0);
    OpenIsThere(t0);
  }

  lemma MadeSaid(t0: Tables, t: Tables, outbox: map<string, Outbox>, now: Instant,
        stableId: (string, string) -> string)
    requires Consistent(t0) && BackfillClear(t0, outbox, stableId) && OutcomeInbox(t0, t, now, stableId)
    ensures MadeColumns(t0, t, stableId)
  {
    hide Consistent, StandsFor, Fits, Keyed, SameEvent, Misfit, Ambiguous, Lone, AmbiguousInbox, FittedInbox,
         BackfillClear;
    BackfillWords(t0);
    forall e | Open(t0, e) && Lone(t0, e)
      ensures MadeFor(t0, t, stableId("metainbox", e), e)
    {
      assert Needs(t0, e);
      MadeIsFree(t0, outbox, e, stableId);
    }
  }

  lemma MadeIsFree(t: Tables, outbox: map<string, Outbox>, e: string, stableId: (string, string) -> string)
    requires Consistent(t) && BackfillClear(t, outbox, stableId) && Open(t, e) && Lone(t, e)
    ensures stableId("metainbox", e) !in t.inbox
  {
    hide Consistent, StandsFor, Fits, Keyed, SameEvent, ScanFine, ScanApart, LinkApartFor;
    assert Unlinked(t, e);
    LoneIff(t, e);
  }

  lemma AsideSaid(t0: Tables, t: Tables, now: Instant)
    requires Consistent(t0) && OutcomeReconciliations(t0, t, now)
    ensures AsideColumns(t0, t, now)
  {
    hide Consistent, StandsFor, Fits, Keyed, SameEvent, Misfit, Ambiguous, Lone;
    BackfillWords(t0);
    forall r | r in t0.recons
      ensures IsSetAside(t0, r) <==> exists e, q :: SetsAside(t0, e, q) && t0.evidence[e].reconciliationId == r
    {
      if IsSetAside(t0, r) {
        var e :| e in t0.evidence && Unlinked(t0, e) && Ambiguous(t0, e) && t0.evidence[e].reconciliationId == r;
        var q :| Misfit(t0, e, q);
        assert SetsAside(t0, e, q);
      }
      if e, q :| SetsAside(t0, e, q) && t0.evidence[e].reconciliationId == r {
        assert Misfit(t0, e, q);
      }
    }
  }

  lemma AsideAuditsSaid(t0: Tables, t: Tables, outbox: map<string, Outbox>, stableId: (string, string) -> string)
    requires Consistent(t0) && BackfillClear(t0, outbox, stableId) && OutcomeAudits(t0, t, stableId)
    ensures AsideAuditColumns(t0, t, stableId)
  {
    hide Consistent, StandsFor, Fits, Keyed, SameEvent, Misfit, Ambiguous, Lone, BackfillClear;
    BackfillWords(t0);
    forall e, q | SetsAside(t0, e, q)
      ensures Audits(t0, t, e, q, stableId) && t0.evidence[e].id == e && t0.inbox[q].id == q
      ensures stableId("audit", "0030:ambiguous:" + e) !in t0.audits
    {
      assert Misfit(t0, e, q);
      AsideIsFree(t0, outbox, e, q, stableId);
    }
    forall a | IsAudited(t0, a, stableId)
      ensures exists e, q :: SetsAside(t0, e, q) && a == stableId("audit", "0030:ambiguous:" + e)
    {
      var e :| Unlinked(t0, e) && Ambiguous(t0, e) && AmbiguityIdFor(e, stableId) == a;
      var q :| Misfit(t0, e, q);
      assert SetsAside(t0, e, q);
    }
  }

  lemma AsideIsFree(t: Tables, outbox: map<string, Outbox>, e: string, q: string, stableId: (string, string) -> string)
    requires Consistent(t) && BackfillClear(t, outbox, stableId) && SetsAside(t, e, q)
    ensures stableId("audit", "0030:ambiguous:" + e) !in t.audits && t.evidence[e].id == e && t.inbox[q].id == q
  {
    hide UniqueReconciliations, UniqueInbox, UniqueEvidence, RowChecks, StandsFor, Fits, Keyed, SameEvent, InScope;
    hide ScanApart, LinkApartFor, LinkFineFor;
    KeyedIsStanding(t);
    assert Unlinked(t, e);
  }

  /** An evidence row left ambiguous is unlinked, and its reconciliation says why it is in quarantine. */
  lemma LeftAmbiguousIff(t: Tables, e: string)
    ensures LeftAmbiguous(t, e) <==>
      && Open(t, e) && t.evidence[e].reconciliationId in t.recons
      && var r := t.recons[t.evidence[e].reconciliationId];
      && r.operational == Quarantined && r.quarantineReason == Some("HISTORICAL_EVIDENCE_INBOX_AMBIGUOUS")
      && r.lastFailureCode == Some("HISTORICAL_EVIDENCE_INBOX_AMBIGUOUS")
  {
  }

  // ----- both procedures -----

  /** The recovery's columns behind the backfill's. */
  ghost predicate BothColumns(t0: Tables, t: Tables, now: Instant, stableId: (string, string) -> string) {
    exists middle :: BackfillColumns(t0, middle, now, stableId) && RecoveryColumns(middle, t, now, stableId)
  }

  /**
   An evidence row that was not there at the start was made for an inbox row that waited at the start,
   and every column of it is one of that row or of its reconciliation at the start.
   */
  ghost predicate MadeFromStart(t0: Tables, t: Tables, e: string) {
    exists q, r :: Awaits(t0, q, r) && Inserted(t0, t, e, q, r)
  }

  lemma NewEvidenceOfBoth(t0: Tables, t1: Tables, t: Tables, now: Instant, stableId: (string, string) -> string)
    requires BackfillColumns(t0, t1, now, stableId) && RecoveryColumns(t1, t, now, stableId)
    ensures BothColumns(t0, t, now, stableId)
    ensures forall e | e in t.evidence && e !in t0.evidence :: MadeFromStart(t0, t, e)
  {
    hide BackfillColumns, RecoveryColumns, Awaits, Inserted, BothColumns;
    forall e | e in t.evidence && e !in t0.evidence
      ensures MadeFromStart(t0, t, e)
    {
      SameEvidenceKeys(t0, t1, now, stableId);
      var q, r := MadeBySecond(t1, t, now, stableId, e);
      WaitedAtStart(t0, t1, now, stableId, q, r);
      InsertedFromStart(t0, t1, t, e, q, r);
    }
    TwoSteps(t0, t1, t, now, stableId);
  }

  lemma TwoSteps(t0: Tables, t1: Tables, t: Tables, now: Instant, stableId: (string, string) -> string)
    requires BackfillColumns(t0, t1, now, stableId) && RecoveryColumns(t1, t, now, stableId)
    ensures BothColumns(t0, t, now, stableId)
  {
    hide BackfillColumns, RecoveryColumns;
  }

  lemma SameEvidenceKeys(t0: Tables, t1: Tables, now: Instant, stableId: (string, string) -> string)
    requires BackfillColumns(t0, t1, now, stableId)
    ensures t1.evidence.Keys == t0.evidence.Keys
  {
    hide StandingColumns, MadeColumns, AsideColumns, AsideAuditColumns, Open, Lone, StandsFor, Fits;
  }

  lemma MadeBySecond(t1: Tables, t: Tables, now: Instant, stableId: (string, string) -> string, e: string)
      returns (q: string, r: string)
    requires RecoveryColumns(t1, t, now, stableId) && e in t.evidence && e !in t1.evidence
    ensures Awaits(t1, q, r) && Inserted(t1, t, e, q, r)
  {
    hide InboxColumns, ReconciliationColumns, AuditColumns, Awaits, Bears, Inserted, NoneBears;
    q, r :| Awaits(t1, q, r) && NoneBears(t1, q, r) && e == stableId("metaevidence", q);
  }

  lemma InsertedFromStart(t0: Tables, t1: Tables, t: Tables, e: string, q: string, r: string)
    requires Inserted(t1, t, e, q, r) && e !in t0.evidence && q in t0.inbox && r in t0.recons
    requires t1.inbox[q] == t0.inbox[q]
    requires t1.recons[r].acceptedAt == t0.recons[r].acceptedAt && t1.recons[r].deadlineAt == t0.recons[r].deadlineAt
    ensures Inserted(t0, t, e, q, r)
  {
  }

  /** The backfill leaves no row waiting that did not wait before. */
  lemma WaitedAtStart(t0: Tables, t1: Tables, now: Instant, stableId: (string, string) -> string, q: string, r: string)
    requires BackfillColumns(t0, t1, now, stableId) && Awaits(t1, q, r)
    ensures Awaits(t0, q, r) && q in t0.inbox && r in t0.recons && q in t1.inbox && r in t1.recons
    ensures t1.inbox[q] == t0.inbox[q]
    ensures t1.recons[r].acceptedAt == t0.recons[r].acceptedAt && t1.recons[r].deadlineAt == t0.recons[r].deadlineAt
  {
    hide StandsFor, Fits, Lone, LinkColumns, AsideAuditColumns;
    MadeIsCorrelated(t0, t1, stableId);
    if e :| Open(t0, e) && StandsFor(t0, q, e) {
      assert t1.inbox[q] == t0.inbox[q];
    }
  }

  lemma MadeIsCorrelated(t0: Tables, t: Tables, stableId: (string, string) -> string)
    requires MadeColumns(t0, t, stableId)
    ensures forall q | q in t.inbox && q !in t0.inbox :: t.inbox[q].state == InboxCorrelated
  {
    hide Open, Lone;
    forall q | q in t.inbox && q !in t0.inbox
      ensures t.inbox[q].state == InboxCorrelated
    {
      var e :| Open(t0, e) && Lone(t0, e) && q == stableId("metainbox", e);
      assert MadeFor(t0, t, q, e);
    }
  }
}
