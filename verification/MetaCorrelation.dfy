/**
 The recovery of quarantined inbox rows in migration 0030: rows parked because no
 reconciliation was found are correlated once there is one. As in the backfill, matches
 are found first and written afterwards, and every doubt blocks.
 */
module MetaCorrelation {
  import opened Common
  import opened MetaTables
  import opened MetaBackfill
  import MetaLifecycle

  // ----- correlation of quarantined inbox rows -----

  /** A parked inbox row, its reconciliation, and the one evidence row that matches, if any. */
  datatype Match = Match(row: Inbox, recon: Reconciliation, evidence: Option<Evidence>)

  predicate Matches(e: Evidence, q: Inbox, r: Reconciliation) {
    e.inboxId == Some(q.id) || (e.reconciliationId == r.id && e.dedupKey == q.dedupKey)
  }

  predicate Identical(e: Evidence, q: Inbox, r: Reconciliation) {
    && e.reconciliationId == r.id
    && (e.inboxId.None? || e.inboxId == Some(q.id))
    && e.dedupKey == q.dedupKey
    && e.event == q.event
  }

  ghost predicate Ready(t: Tables, m: Match) {
    && m.row.id in t.inbox
    && t.inbox[m.row.id] == m.row
    && NotFound(m.row)
    && m.recon.id in t.recons
    && t.recons[m.recon.id].providerId == m.row.providerId
    && t.recons[m.recon.id].state == Pending
    && t.recons[m.recon.id].operational == Active
    && match m.evidence
       case None => forall e | e in t.evidence :: !Matches(t.evidence[e], m.row, m.recon)
       case Some(x) =>
         && x.id in t.evidence
         && t.evidence[x.id] == x
         && Identical(x, m.row, m.recon)
         && forall e | e in t.evidence && e != x.id :: !Matches(t.evidence[e], m.row, m.recon)
  }

  /** The evidence row a correlated inbox row ends up with. */
  function EvidenceOf(m: Match, id: string): Evidence {
    match m.evidence
    case Some(x) => x.(inboxId := Some(m.row.id))
    case None =>
      Evidence(id, m.recon.id, Some(m.row.id), m.row.dedupKey, m.row.event, m.row.receivedAt,
               m.row.receivedAt <= m.recon.deadlineAt, m.recon.acceptedAt)
  }

  function AcceptanceAudit(id: string, m: Match): Audit {
    Audit(id, "production_meta_callback_exact_acceptance_requeued", Some("QUARANTINED"), Some("CORRELATED"),
          "meta_callback_reconciler_v2_migration", Some(m.row.id), Some(m.recon.id))
  }

  function DueNow(r: Reconciliation, now: Instant): Reconciliation {
    r.(nextReconcileAt := if now < r.nextReconcileAt then now else r.nextReconcileAt, updatedAt := now)
  }

  function Correlate(t: Tables, m: Match, now: Instant, evidenceId: string, auditId: string): Tables
    requires m.recon.id in t.recons
  {
    var e := EvidenceOf(m, evidenceId);
    t.(evidence := t.evidence[e.id := e],
       inbox := t.inbox[m.row.id := CorrelatedInbox(m.row, m.recon.id, m.recon.acceptedAt)],
       recons := t.recons[m.recon.id := DueNow(t.recons[m.recon.id], now)],
       audits := t.audits[auditId := AcceptanceAudit(auditId, m)])
  }

  ghost predicate Correlatable(t: Tables, m: Match, evidenceId: string, auditId: string) {
    && Ready(t, m)
    && (m.evidence.None? ==> evidenceId !in t.evidence)
    && auditId !in t.audits
  }

  lemma CorrelateKeepsRows(t: Tables, m: Match, now: Instant, evidenceId: string, auditId: string)
    requires KeysMatch(t) && RowChecks(t) && Unclaimed(t) && Correlatable(t, m, evidenceId, auditId)
    ensures var u := Correlate(t, m, now, evidenceId, auditId); KeysMatch(u) && RowChecks(u) && Unclaimed(u)
  {
  }

  lemma CorrelateKeepsForeignKeys(t: Tables, m: Match, now: Instant, evidenceId: string, auditId: string)
    requires ForeignKeys(t) && Correlatable(t, m, evidenceId, auditId)
    ensures ForeignKeys(Correlate(t, m, now, evidenceId, auditId))
  {
  }

  lemma CorrelateKeepsUnique(t: Tables, m: Match, now: Instant, evidenceId: string, auditId: string)
    requires UniqueReconciliations(t) && UniqueInbox(t) && Correlatable(t, m, evidenceId, auditId)
    ensures var u := Correlate(t, m, now, evidenceId, auditId); UniqueReconciliations(u) && UniqueInbox(u)
  {
  }

  lemma CorrelateKeepsUniqueEvidence(t: Tables, m: Match, now: Instant, evidenceId: string, auditId: string)
    requires UniqueEvidence(t) && Correlatable(t, m, evidenceId, auditId)
    ensures UniqueEvidence(Correlate(t, m, now, evidenceId, auditId))
  {
  }

  lemma CorrelateKeepsConsistent(t: Tables, m: Match, now: Instant, evidenceId: string, auditId: string)
    requires Consistent(t) && Unclaimed(t) && Correlatable(t, m, evidenceId, auditId)
    requires m.recon.id in t.recons
    ensures var u := Correlate(t, m, now, evidenceId, auditId); Consistent(u) && Unclaimed(u)
  {
    hide KeysMatch, RowChecks, ForeignKeys, UniqueReconciliations, UniqueInbox, UniqueEvidence, Unclaimed;
    hide Correlatable, Correlate;
    CorrelateKeepsRows(t, m, now, evidenceId, auditId);
    CorrelateKeepsForeignKeys(t, m, now, evidenceId, auditId);
    CorrelateKeepsUnique(t, m, now, evidenceId, auditId);
    CorrelateKeepsUniqueEvidence(t, m, now, evidenceId, auditId);
  }

  /** Inbox row `q` is correlated to reconciliation `r`, with evidence and an audit that records it. */
  ghost predicate Correlated(t: Tables, q: string, r: string) {
    && q in t.inbox
    && t.inbox[q].reconciliationId == Some(r)
    && (exists e :: MetaLifecycle.Linked(t, q, e))
    && (exists a | a in t.audits :: RecordsExactAcceptance(t.audits[a], q, r))
  }

  lemma CorrelateCorrelates(t: Tables, m: Match, now: Instant, evidenceId: string, auditId: string)
    requires KeysMatch(t) && Correlatable(t, m, evidenceId, auditId)
    ensures Correlated(Correlate(t, m, now, evidenceId, auditId), m.row.id, m.recon.id)
  {
    var u := Correlate(t, m, now, evidenceId, auditId);
    assert MetaLifecycle.Linked(u, m.row.id, EvidenceOf(m, evidenceId).id);
    assert RecordsExactAcceptance(u.audits[auditId], m.row.id, m.recon.id);
  }

  lemma CorrelateKeepsCorrelated(t: Tables, m: Match, now: Instant, evidenceId: string, auditId: string, q: string,
        r: string)
    requires KeysMatch(t) && Correlatable(t, m, evidenceId, auditId)
    requires Correlated(t, q, r)
    ensures Correlated(Correlate(t, m, now, evidenceId, auditId), q, r)
  {
    var u := Correlate(t, m, now, evidenceId, auditId);
    var e :| MetaLifecycle.Linked(t, q, e);
    assert MetaLifecycle.Linked(u, q, e);
    var a :| a in t.audits && RecordsExactAcceptance(t.audits[a], q, r);
    assert u.audits[a] == t.audits[a];
  }

  /** Two parked inbox rows never compete for the same evidence row. */
  lemma KeysTellInboxApart(t: Tables, m: Match, evidenceId: string, o: Match)
    requires UniqueInbox(t) && Ready(t, m) && Ready(t, o) && o.row.id != m.row.id
    ensures !Matches(EvidenceOf(m, evidenceId), o.row, o.recon)
    ensures m.evidence.Some? && o.evidence.Some? ==> m.evidence.value.id != o.evidence.value.id
  {
    assert o.recon.id == m.recon.id ==> o.row.dedupKey != m.row.dedupKey;
  }

  /** Correlating one inbox row leaves the snapshots of the others current. */
  lemma CorrelateKeepsReady(t: Tables, m: Match, now: Instant, evidenceId: string, auditId: string, o: Match)
    requires UniqueInbox(t) && Correlatable(t, m, evidenceId, auditId)
    requires Ready(t, o) && o.row.id != m.row.id
    ensures Ready(Correlate(t, m, now, evidenceId, auditId), o)
  {
    hide UniqueInbox, Identical;
    KeysTellInboxApart(t, m, evidenceId, o);
    var u := Correlate(t, m, now, evidenceId, auditId);
    var x := EvidenceOf(m, evidenceId);
    assert forall e | e in u.evidence && e != x.id :: e in t.evidence && u.evidence[e] == t.evidence[e];
    assert u.evidence[x.id] == x;
  }

  /** All the second loop may have done after correlating the first `n` matches. */
  ghost predicate RecoverInvariant(t0: Tables, t: Tables, matched: seq<Match>, n: nat)
    requires n <= |matched|
  {
    && Untouched(t0, t)
    && (forall q | q in t0.inbox :: t.inbox[q] == t0.inbox[q] || exists i ::
          0 <= i < |matched| && matched[i].row.id == q)
    && (forall i | 0 <= i < n :: Correlated(t, matched[i].row.id, matched[i].recon.id))
    && (forall i | n <= i < |matched| :: Ready(t, matched[i]))
  }

  /** Only the due time of a reconciliation moves; evidence changes only under active ones. */
  ghost predicate Untouched(t0: Tables, t: Tables) {
    && Kept(t0, t)
    && t.inbox.Keys == t0.inbox.Keys
    && (forall r | r in t0.recons ::
          t.recons[r]
            == t0.recons[r].(nextReconcileAt := t.recons[r].nextReconcileAt, updatedAt := t.recons[r].updatedAt))
    && (forall e | e in t0.evidence ::
          || t.evidence[e] == t0.evidence[e]
          || (&& t0.evidence[e].reconciliationId in t0.recons
              && t0.recons[t0.evidence[e].reconciliationId].operational == Active))
  }

  lemma CorrelateWrites(t: Tables, m: Match, now: Instant, evidenceId: string, auditId: string)
    requires KeysMatch(t) && Correlatable(t, m, evidenceId, auditId)
    ensures var u := Correlate(t, m, now, evidenceId, auditId);
      && u.inbox.Keys == t.inbox.Keys && (forall q | q in t.inbox && q != m.row.id :: u.inbox[q] == t.inbox[q])
      && u.recons.Keys == t.recons.Keys && (forall r | r in t.recons && r != m.recon.id :: u.recons[r] == t.recons[r])
      && u.recons[m.recon.id] == DueNow(t.recons[m.recon.id], now)
      && t.evidence.Keys <= u.evidence.Keys
      && (forall e | e in t.evidence && Some(t.evidence[e]) != m.evidence :: u.evidence[e] == t.evidence[e])
  {
  }

  lemma CorrelateKeeps(t: Tables, m: Match, now: Instant, evidenceId: string, auditId: string)
    requires KeysMatch(t) && Correlatable(t, m, evidenceId, auditId)
    ensures Kept(t, Correlate(t, m, now, evidenceId, auditId))
    ensures Correlate(t, m, now, evidenceId, auditId).inbox.Keys == t.inbox.Keys
  {
    hide Matches, AcceptanceAudit;
    var u := Correlate(t, m, now, evidenceId, auditId);
    assert EvidenceKept(t, u);
    assert InboxKept(t, u);
    assert ReconciliationsKept(t, u);
  }

  lemma CorrelateUntouches(t0: Tables, t: Tables, m: Match, now: Instant, evidenceId: string, auditId: string)
    requires Untouched(t0, t) && KeysMatch(t) && Correlatable(t, m, evidenceId, auditId)
    requires m.recon.id in t.recons
    ensures Untouched(t0, Correlate(t, m, now, evidenceId, auditId))
  {
    hide Correlatable, Correlate, KeysMatch, Untouched;
    CorrelateOnlyUntouches(t, m, now, evidenceId, auditId);
    UntouchedIsTransitive(t0, t, Correlate(t, m, now, evidenceId, auditId));
  }

  lemma CorrelateOnlyUntouches(t: Tables, m: Match, now: Instant, evidenceId: string, auditId: string)
    requires KeysMatch(t) && Correlatable(t, m, evidenceId, auditId)
    requires m.recon.id in t.recons
    ensures Untouched(t, Correlate(t, m, now, evidenceId, auditId))
  {
    hide Correlatable, Correlate, KeysMatch, Kept;
    CorrelateWrites(t, m, now, evidenceId, auditId);
    CorrelateKeeps(t, m, now, evidenceId, auditId);
    ChangedUnderActive(t, m, evidenceId, auditId);
  }

  lemma UntouchedIsTransitive(t0: Tables, t: Tables, u: Tables)
    requires Untouched(t0, t) && Untouched(t, u)
    ensures Untouched(t0, u)
  {
    KeptIsTransitive(t0, t, u);
  }

  lemma ChangedUnderActive(t: Tables, m: Match, evidenceId: string, auditId: string)
    requires Correlatable(t, m, evidenceId, auditId)
    ensures m.evidence.Some? ==>
      && m.evidence.value.reconciliationId in t.recons
      && t.recons[m.evidence.value.reconciliationId].operational == Active
  {
  }

  lemma RecoverStarts(t: Tables, matched: seq<Match>)
    requires Consistent(t)
    requires forall i | 0 <= i < |matched| :: Ready(t, matched[i])
    ensures RecoverInvariant(t, t, matched, 0)
  {
    hide Consistent, Ready;
  }

  lemma ReadyRows(t: Tables, m: Match)
    requires Ready(t, m)
    ensures m.row.id in t.inbox && t.inbox[m.row.id] == m.row && m.recon.id in t.recons
    ensures m.evidence.Some? ==>
      m.evidence.value.id in t.evidence && t.evidence[m.evidence.value.id] == m.evidence.value
    ensures m.evidence.Some? && m.evidence.value.inboxId.Some? ==> m.evidence.value.inboxId == Some(m.row.id)
  {
  }

  lemma ReadyIsCorrelatable(t: Tables, m: Match, evidenceId: string, auditId: string)
    requires Ready(t, m) && (m.evidence.None? ==> evidenceId !in t.evidence) && auditId !in t.audits
    ensures Correlatable(t, m, evidenceId, auditId)
  {
  }

  lemma NextIsReady(t0: Tables, t: Tables, matched: seq<Match>, n: nat)
    requires n < |matched| && RecoverInvariant(t0, t, matched, n)
    ensures Ready(t, matched[n])
  {
  }

  lemma RecoverAdvances(t0: Tables, t: Tables, matched: seq<Match>, n: nat, now: Instant, evidenceId: string,
        auditId: string)
    requires n < |matched| && RecoverInvariant(t0, t, matched, n)
    requires forall i, j | 0 <= i < j < |matched| :: matched[i].row.id != matched[j].row.id
    requires Consistent(t) && Correlatable(t, matched[n], evidenceId, auditId)
    requires matched[n].recon.id in t.recons
    ensures RecoverInvariant(t0, Correlate(t, matched[n], now, evidenceId, auditId), matched, n + 1)
  {
    hide Consistent, KeysMatch, RowChecks, ForeignKeys, UniqueReconciliations, UniqueInbox, UniqueEvidence;
    hide Correlatable, Correlate, Ready, Untouched, Correlated;
    ConsistentParts(t);
    var m := matched[n];
    var u := Correlate(t, m, now, evidenceId, auditId);
    CorrelateUntouches(t0, t, m, now, evidenceId, auditId);
    CorrelateWrites(t, m, now, evidenceId, auditId);
    CorrelateCorrelates(t, m, now, evidenceId, auditId);
    forall i | 0 <= i < n
      ensures Correlated(u, matched[i].row.id, matched[i].recon.id)
    {
      CorrelateKeepsCorrelated(t, m, now, evidenceId, auditId, matched[i].row.id, matched[i].recon.id);
    }
    forall i | n + 1 <= i < |matched|
      ensures Ready(u, matched[i])
    {
      CorrelateKeepsReady(t, m, now, evidenceId, auditId, matched[i]);
    }
    InboxKeysKept(t0, t);
  }

  lemma InboxKeysKept(t0: Tables, t: Tables)
    requires Untouched(t0, t)
    ensures t.inbox.Keys == t0.inbox.Keys
  {
  }

  /** The parked inbox row has a reconciliation with its provider id. */
  predicate Recoverable(t: Tables, q: string) {
    && q in t.inbox
    && NotFound(t.inbox[q])
    && exists r | r in t.recons :: t.recons[r].providerId == t.inbox[q].providerId
  }

  function ParkedRows(t: Tables): (rows: set<string>)
    ensures forall q :: q in rows <==> Recoverable(t, q)
  {
    set q | q in t.inbox && Recoverable(t, q)
  }

  /** A valid parked callback names a reconciliation that is already terminal. */
  predicate TerminalConflict(t: Tables) {
    exists q, r | q in t.inbox && r in t.recons ::
      && t.recons[r].providerId == t.inbox[q].providerId
      && t.inbox[q].state == InboxQuarantined
      && t.inbox[q].event.valid
      && t.recons[r].state != Pending
  }

  /** A parked callback names a reconciliation whose outbox message is not the exact attempt. */
  predicate ScopeConflict(t: Tables, outbox: map<string, Outbox>) {
    exists q, r | q in t.inbox && r in t.recons && t.recons[r].outboxId in outbox ::
      && t.recons[r].providerId == t.inbox[q].providerId
      && NotFound(t.inbox[q])
      && !(&& ExactScope(outbox[t.recons[r].outboxId], t.recons[r])
           && t.recons[r].tenantId == outbox[t.recons[r].outboxId].tenantId)
  }

  ghost predicate Recovered(t0: Tables, t: Tables) {
    && Untouched(t0, t)
    && (forall q | q in t0.inbox && !Recoverable(t0, q) :: t.inbox[q] == t0.inbox[q])
    && (forall q, r | Recoverable(t0, q) && r in t0.recons && t0.recons[r].providerId == t0.inbox[q].providerId ::
          Correlated(t, q, r))
  }

  lemma RecoverFinishes(t0: Tables, t: Tables, rows: seq<string>, matched: seq<Match>)
    requires RecoverInvariant(t0, t, matched, |matched|)
    requires UniqueReconciliations(t0) && |matched| == |rows|
    requires forall i | 0 <= i < |matched| :: matched[i].row.id == rows[i] && Ready(t0, matched[i])
    requires forall q :: q in rows <==> Recoverable(t0, q)
    ensures Recovered(t0, t)
  {
    forall q, r | Recoverable(t0, q) && r in t0.recons && t0.recons[r].providerId == t0.inbox[q].providerId
      ensures Correlated(t, q, r)
    {
      var i :| 0 <= i < |rows| && rows[i] == q;
      assert Ready(t0, matched[i]);
      assert matched[i].recon.id == r;
    }
    forall q | q in t0.inbox && !Recoverable(t0, q)
      ensures t.inbox[q] == t0.inbox[q]
    {
      assert q !in rows;
    }
  }

  // ----- when the recovery finishes -----

  function EvidenceIdFor(m: Match, stableId: (string, string) -> string): string {
    stableId("metaevidence", m.row.id)
  }

  function AuditIdFor(m: Match, stableId: (string, string) -> string): string {
    stableId("audit", "0030:" + m.row.id)
  }

  /** The keys that writing a match takes are free. */
  ghost predicate Free(t: Tables, m: Match, stableId: (string, string) -> string) {
    && AuditIdFor(m, stableId) !in t.audits
    && (m.evidence.None? ==> EvidenceIdFor(m, stableId) !in t.evidence)
  }

  /** Two matches do not take the same key. */
  ghost predicate Differ(m: Match, o: Match, stableId: (string, string) -> string) {
    && AuditIdFor(m, stableId) != AuditIdFor(o, stableId)
    && (m.evidence.None? && o.evidence.None? ==> EvidenceIdFor(m, stableId) != EvidenceIdFor(o, stableId))
  }

  ghost predicate IdsFree(t: Tables, matched: seq<Match>, n: nat, stableId: (string, string) -> string)
    requires n <= |matched|
  {
    && (forall i | 0 <= i < n :: Free(t, matched[i], stableId))
    && forall i, j | 0 <= i < j < n :: Differ(matched[i], matched[j], stableId)
  }

  /** The keys in use after the first `n` matches were written. */
  ghost predicate KeysGrown(t0: Tables, t: Tables, matched: seq<Match>, n: nat, stableId: (string, string) -> string)
    requires n <= |matched|
  {
    && (forall e :: e in t.evidence <==>
          e in t0.evidence
            || exists i :: 0 <= i < n && matched[i].evidence.None? && EvidenceIdFor(matched[i], stableId) == e)
    && (forall a :: a in t.audits <==>
          a in t0.audits || exists i :: 0 <= i < n && AuditIdFor(matched[i], stableId) == a)
  }

  /** The next match finds its keys taken exactly when they were taken at the start or by a match before it. */
  lemma NextIdsFree(t0: Tables, t: Tables, matched: seq<Match>, n: nat, stableId: (string, string) -> string)
    requires n < |matched| && KeysGrown(t0, t, matched, n, stableId) && IdsFree(t0, matched, n, stableId)
    ensures Free(t, matched[n], stableId) <==> IdsFree(t0, matched, n + 1, stableId)
  {
    hide EvidenceIdFor, AuditIdFor;
    if Free(t, matched[n], stableId) {
      forall i | 0 <= i < n
        ensures Differ(matched[i], matched[n], stableId)
      {
        assert AuditIdFor(matched[i], stableId) in t.audits;
        assert matched[i].evidence.None? ==> EvidenceIdFor(matched[i], stableId) in t.evidence;
      }
    }
    if IdsFree(t0, matched, n + 1, stableId) {
      assert forall i | 0 <= i < n :: Differ(matched[i], matched[n], stableId);
      assert Free(t0, matched[n], stableId);
    }
  }

  lemma KeysGrow(t0: Tables, t: Tables, matched: seq<Match>, n: nat, now: Instant, stableId: (string, string) -> string)
    requires n < |matched| && KeysGrown(t0, t, matched, n, stableId)
    requires matched[n].recon.id in t.recons && KeysMatch(t)
    requires matched[n].evidence.Some? ==> matched[n].evidence.value.id in t.evidence
    ensures KeysGrown(t0,
      Correlate(t, matched[n], now, EvidenceIdFor(matched[n], stableId), AuditIdFor(matched[n], stableId)),
      matched, n + 1, stableId)
  {
    hide EvidenceIdFor, AuditIdFor;
  }

  lemma NoKeyTaken(t: Tables, matched: seq<Match>, stableId: (string, string) -> string)
    ensures IdsFree(t, matched, 0, stableId) && KeysGrown(t, t, matched, 0, stableId)
  {
  }

  /** A row with several candidates for its evidence, or one that is not identical, has no match. */
  lemma AmbiguousEvidence(t: Tables, q: Inbox, r: Reconciliation, found: set<string>, e: string)
    requires KeysMatch(t) && UniqueReconciliations(t) && q.id in t.inbox && t.inbox[q.id] == q
    requires r.id in t.recons && t.recons[r.id] == r && r.providerId == q.providerId
    requires forall k :: k in found <==> k in t.evidence && Matches(t.evidence[k], q, r)
    requires e in found && (found != {e} || !Identical(t.evidence[e], q, r))
    ensures !HasMatch(t, q.id)
  {
    forall m: Match | m.row.id == q.id
      ensures !Ready(t, m)
    {
      if Ready(t, m) {
        MatchEvidence(t, m, q, r, found);
      }
    }
  }

  lemma MatchEvidence(t: Tables, m: Match, q: Inbox, r: Reconciliation, found: set<string>)
    requires KeysMatch(t) && UniqueReconciliations(t) && Ready(t, m) && m.row == q
    requires r.id in t.recons && t.recons[r.id] == r && r.providerId == q.providerId
    requires forall k :: k in found <==> k in t.evidence && Matches(t.evidence[k], q, r)
    ensures m.evidence.None? ==> found == {}
    ensures m.evidence.Some? ==> found == {m.evidence.value.id} && Identical(t.evidence[m.evidence.value.id], q, r)
  {
    assert m.recon.id == r.id;
    forall k | k in t.evidence
      ensures Matches(t.evidence[k], q, r) <==> Matches(t.evidence[k], m.row, m.recon)
    {
    }
    if m.evidence.Some? {
      assert Matches(m.evidence.value, q, r);
    }
  }

  lemma IdsFreeIsMonotone(t: Tables, matched: seq<Match>, n: nat, stableId: (string, string) -> string)
    requires n <= |matched| && IdsFree(t, matched, |matched|, stableId)
    ensures IdsFree(t, matched, n, stableId)
  {
  }

  /**
   Nothing blocks the recovery: no conflict, one exact match for every parked row that has a
   reconciliation, and free keys for what the matches write.
   */
  ghost predicate Clear(t: Tables, outbox: map<string, Outbox>, stableId: (string, string) -> string) {
    && !TerminalConflict(t) && !ScopeConflict(t, outbox)
    && (forall q | Recoverable(t, q) :: HasMatch(t, q))
    && (forall m | Ready(t, m) :: Free(t, m, stableId))
    && forall m, o | Ready(t, m) && Ready(t, o) && m.row.id != o.row.id :: Differ(m, o, stableId)
  }

  ghost predicate HasMatch(t: Tables, q: string) {
    exists m: Match :: m.row.id == q && Ready(t, m)
  }

  lemma NotClear(t: Tables, outbox: map<string, Outbox>, stableId: (string, string) -> string)
    requires TerminalConflict(t) || ScopeConflict(t, outbox) || exists q :: Recoverable(t, q) && !HasMatch(t, q)
    ensures !Clear(t, outbox, stableId)
  {
    hide TerminalConflict, ScopeConflict, Recoverable, HasMatch, Ready;
  }

  lemma ReadyIsRecoverable(t: Tables, m: Match)
    requires Ready(t, m)
    ensures Recoverable(t, m.row.id)
  {
  }

  /** The tables determine the row of a match and whether it has evidence. */
  lemma MatchIsUnique(t: Tables, m: Match, o: Match)
    requires UniqueReconciliations(t) && Ready(t, m) && Ready(t, o) && m.row.id == o.row.id
    ensures m.recon.id == o.recon.id && m.evidence == o.evidence
  {
  }

  /** When every parked row is matched, the keys are free for the list exactly when they are for all matches. */
  lemma ClearMatches(t: Tables, outbox: map<string, Outbox>, rows: seq<string>, matched: seq<Match>,
        stableId: (string, string) -> string)
    requires UniqueReconciliations(t) && !TerminalConflict(t) && !ScopeConflict(t, outbox)
    requires NoDuplicates(rows) && |matched| == |rows| && forall q :: q in rows <==> Recoverable(t, q)
    requires forall i | 0 <= i < |matched| :: matched[i].row.id == rows[i] && Ready(t, matched[i])
    ensures Clear(t, outbox, stableId) <==> IdsFree(t, matched, |matched|, stableId)
  {
    hide Ready, Recoverable, TerminalConflict, ScopeConflict, UniqueReconciliations;
    if IdsFree(t, matched, |matched|, stableId) {
      forall q | Recoverable(t, q)
        ensures HasMatch(t, q)
      {
        var i := PositionOf(t, rows, matched, q);
      }
      forall m | Ready(t, m)
        ensures Free(t, m, stableId)
      {
        ReadyIsRecoverable(t, m);
        var i := PositionOf(t, rows, matched, m.row.id);
        MatchIsUnique(t, m, matched[i]);
      }
      forall m, o | Ready(t, m) && Ready(t, o) && m.row.id != o.row.id
        ensures Differ(m, o, stableId)
      {
        ReadyIsRecoverable(t, m);
        ReadyIsRecoverable(t, o);
        var i, j := PositionOf(t, rows, matched, m.row.id), PositionOf(t, rows, matched, o.row.id);
        MatchIsUnique(t, m, matched[i]);
        MatchIsUnique(t, o, matched[j]);
        assert if i < j then Differ(matched[i], matched[j], stableId) else Differ(matched[j], matched[i], stableId);
      }
    }
  }

  ghost function PositionOf(t: Tables, rows: seq<string>, matched: seq<Match>, q: string): (i: nat)
    requires |matched| == |rows| && q in rows
    requires forall k | 0 <= k < |matched| :: matched[k].row.id == rows[k]
    ensures i < |rows| && rows[i] == q && matched[i].row.id == q
  {
    var i: nat :| i < |rows| && rows[i] == q;
    i
  }
}
