/**
 The evidence backfill of migration 0030: old evidence rows are linked to inbox rows. It
 scans first and writes afterwards, from row snapshots taken in the scan; an evidence row
 whose inbox row does not fit is set aside with its reconciliation. Here are the row
 predicates, what one step of either loop keeps, and when the loops block, said by the
 tables of the start.
 */
module MetaBackfill {
  import opened Common
  import opened MetaTables

  const AMBIGUITY := "HISTORICAL_EVIDENCE_INBOX_AMBIGUOUS"

  const AMBIGUOUS_INBOX := "PRODUCTION_META_HISTORICAL_EVIDENCE_INBOX_AMBIGUOUS"

  /** An outbox message; `tenantId` is the tenant of the interaction it belongs to. */
  datatype Outbox = Outbox(
    id: string,
    tenantId: string,
    destination: string,
    actionType: string,
    attemptCount: int,
    retryPolicy: Option<string>,
    providerId: Option<string>)

  predicate ExactScope(o: Outbox, r: Reconciliation) {
    && o.destination == "meta_whatsapp_cloud"
    && o.actionType == "production_conversation_reply"
    && o.attemptCount == 1
    && o.retryPolicy == Some("NONE")
    && o.providerId == Some(r.providerId)
  }

  ghost predicate Unclaimed(t: Tables) {
    forall q | q in t.inbox :: t.inbox[q].claim.None?
  }

  ghost predicate OutboxKnown(t: Tables, outbox: map<string, Outbox>) {
    forall r | r in t.recons :: t.recons[r].outboxId in outbox
  }

  /** Provider id of the reconciliation an evidence row belongs to. */
  function ProviderOf(t: Tables, e: Evidence): string
    requires e.reconciliationId in t.recons
  {
    t.recons[e.reconciliationId].providerId
  }

  predicate HasKey(q: Inbox, providerId: string, dedupKey: string) {
    q.providerId == providerId && q.dedupKey == dedupKey
  }

  /** The inbox row can stand for the evidence row. */
  predicate SameEvent(e: Evidence, q: Inbox) {
    && q.event == e.event
    && (q.state == InboxQuarantined ==> q.lastErrorCode == Some(NOT_FOUND))
    && (q.reconciliationId.Some? ==> q.reconciliationId == Some(e.reconciliationId))
  }

  predicate IsAmbiguous(r: Reconciliation) {
    && r.operational == Quarantined
    && r.quarantineReason == Some(AMBIGUITY)
    && r.lastFailureCode == Some(AMBIGUITY)
  }

  function AmbiguousReconciliation(r: Reconciliation, now: Instant): Reconciliation {
    r.(operational := Quarantined, lastFailureAt := Some(now), lastFailureCode := Some(AMBIGUITY),
       quarantinedAt := Some(now), quarantineReason := Some(AMBIGUITY), updatedAt := now)
  }

  function AmbiguousInbox(q: Inbox, now: Instant): Inbox {
    q.(state := InboxQuarantined, lastErrorCode := Some(AMBIGUOUS_INBOX), quarantinedAt := Some(now), updatedAt := now)
  }

  /** The inbox row made for an evidence row that has none. */
  function InboxFor(e: Evidence, id: string, providerId: string): Inbox {
    Inbox(id, providerId, e.dedupKey, e.event, e.receivedAt, InboxCorrelated, Some(e.reconciliationId),
          0, e.createdAt, None, Some(e.createdAt), None, e.createdAt, e.createdAt, None, None)
  }

  function CorrelatedInbox(q: Inbox, reconciliationId: string, at: Instant): Inbox {
    q.(state := InboxCorrelated, reconciliationId := Some(reconciliationId), correlatedAt := Some(at),
       lastErrorCode := None, quarantinedAt := None, updatedAt := at)
  }

  // ----- what the backfill leaves behind -----

  /** The evidence row is linked to an inbox row with its provider id, key and event. */
  ghost predicate LinkedTo(t: Tables, e: string, q: string) {
    && e in t.evidence
    && t.evidence[e].inboxId == Some(q)
    && q in t.inbox
    && t.evidence[e].reconciliationId in t.recons
    && HasKey(t.inbox[q], ProviderOf(t, t.evidence[e]), t.evidence[e].dedupKey)
    && t.inbox[q].event == t.evidence[e].event
  }

  ghost predicate CorrelatedTo(t: Tables, e: string, q: string) {
    && LinkedTo(t, e, q)
    && t.inbox[q].state == InboxCorrelated
    && t.inbox[q].reconciliationId == Some(t.evidence[e].reconciliationId)
  }

  /** The linked inbox row still waits in quarantine for its reconciliation to be found. */
  ghost predicate ParkedAt(t: Tables, e: string, q: string) {
    && LinkedTo(t, e, q)
    && NotFound(t.inbox[q])
  }

  predicate NotFound(q: Inbox) {
    q.state == InboxQuarantined && q.lastErrorCode == Some(NOT_FOUND)
  }

  ghost predicate LeftAmbiguous(t: Tables, e: string) {
    && e in t.evidence
    && t.evidence[e].inboxId.None?
    && t.evidence[e].reconciliationId in t.recons
    && IsAmbiguous(t.recons[t.evidence[e].reconciliationId])
  }

  ghost predicate Backfilled(t: Tables, e: string) {
    || (exists q :: CorrelatedTo(t, e, q) || ParkedAt(t, e, q))
    || LeftAmbiguous(t, e)
  }

  /** No evidence row is lost, and one changes only by gaining an inbox id. */
  ghost predicate EvidenceKept(t0: Tables, t: Tables) {
    && t0.evidence.Keys <= t.evidence.Keys
    && forall e | e in t0.evidence ::
         && t.evidence[e] == t0.evidence[e].(inboxId := t.evidence[e].inboxId)
         && (t0.evidence[e].inboxId.Some? ==> t.evidence[e] == t0.evidence[e])
  }

  ghost predicate InboxKept(t0: Tables, t: Tables) {
    && t0.inbox.Keys <= t.inbox.Keys
    && forall q | q in t0.inbox ::
         && SameCallback(t0.inbox[q], t.inbox[q])
         && (t0.inbox[q].state == InboxCorrelated ==> t.inbox[q] == t0.inbox[q])
  }

  ghost predicate ReconciliationsKept(t0: Tables, t: Tables) {
    && t.recons.Keys == t0.recons.Keys
    && forall r | r in t0.recons ::
         && LifecycleAllows(t0.recons[r], t.recons[r])
         && t.recons[r].state == t0.recons[r].state
  }

  ghost predicate Kept(t0: Tables, t: Tables) {
    EvidenceKept(t0, t) && InboxKept(t0, t) && ReconciliationsKept(t0, t)
  }

  // ----- scan of the backfill -----

  /** An evidence row to link, with the inbox row the scan found for it, if any. */
  datatype Prepared = Prepared(row: Evidence, existing: Option<Inbox>, inboxId: string)

  /** The snapshot in `p` is what the tables hold. */
  ghost predicate Current(t: Tables, p: Prepared) {
    && p.row.id in t.evidence
    && t.evidence[p.row.id] == p.row
    && p.row.inboxId.None?
    && p.row.reconciliationId in t.recons
    && match p.existing
       case None => forall q | q in t.inbox :: !HasKey(t.inbox[q], ProviderOf(t, p.row), p.row.dedupKey)
       case Some(x) =>
         && p.inboxId in t.inbox
         && t.inbox[p.inboxId] == x
         && HasKey(x, ProviderOf(t, p.row), p.row.dedupKey)
         && SameEvent(p.row, x)
  }

  /** All the scan may have done to the tables so far. */
  ghost predicate Scanned(t0: Tables, t: Tables, now: Instant) {
    && t.evidence == t0.evidence
    && t0.audits.Keys <= t.audits.Keys
    && (forall a | a in t.audits :: t.audits[a].id == a)
    && t.recons.Keys == t0.recons.Keys
    && (forall r | r in t0.recons ::
          || t.recons[r] == t0.recons[r]
          || (&& t0.recons[r].state == Pending
              && t.recons[r] == AmbiguousReconciliation(t0.recons[r], now)))
    && t.inbox.Keys == t0.inbox.Keys
    && (forall q | q in t0.inbox ::
          || t.inbox[q] == t0.inbox[q]
          || (&& t0.inbox[q].state == InboxPending
              && t.inbox[q] == AmbiguousInbox(t0.inbox[q], now)))
  }

  lemma ScannedKeepsKeys(t0: Tables, t: Tables, now: Instant)
    requires KeysMatch(t0) && Scanned(t0, t, now)
    ensures KeysMatch(t)
  {
  }

  lemma ScannedKeepsRows(t0: Tables, t: Tables, now: Instant)
    requires RowChecks(t0) && Unclaimed(t0) && Scanned(t0, t, now)
    ensures RowChecks(t) && Unclaimed(t)
  {
  }

  lemma ScannedKeepsForeignKeys(t0: Tables, t: Tables, now: Instant)
    requires ForeignKeys(t0) && Scanned(t0, t, now)
    ensures ForeignKeys(t)
  {
  }

  lemma ScannedKeepsUnique(t0: Tables, t: Tables, now: Instant)
    requires UniqueReconciliations(t0) && UniqueInbox(t0) && UniqueEvidence(t0)
    requires Unclaimed(t0) && Scanned(t0, t, now)
    ensures UniqueReconciliations(t) && UniqueInbox(t) && UniqueEvidence(t)
  {
  }

  lemma ScannedKeeps(t0: Tables, t: Tables, now: Instant)
    requires Scanned(t0, t, now)
    ensures Kept(t0, t)
  {
  }

  lemma ScannedKeepsConsistent(t0: Tables, t: Tables, now: Instant)
    requires Consistent(t0) && Unclaimed(t0) && Scanned(t0, t, now)
    ensures Consistent(t) && Unclaimed(t)
  {
    hide KeysMatch, RowChecks, ForeignKeys, UniqueReconciliations, UniqueInbox, UniqueEvidence, Scanned;
    ScannedKeepsKeys(t0, t, now);
    ScannedKeepsRows(t0, t, now);
    ScannedKeepsForeignKeys(t0, t, now);
    ScannedKeepsUnique(t0, t, now);
  }

  function AmbiguityAudit(id: string, e: Evidence, q: Inbox): Audit {
    Audit(id, "production_meta_historical_evidence_quarantined", Some("ACTIVE"), Some("QUARANTINED"),
          "meta_callback_reconciler_v2_migration", Some(q.id), Some(e.reconciliationId))
  }

  /** The tables after the reconciliation of `e` and the inbox row `q` were set aside. */
  function SetAside(t: Tables, e: Evidence, q: Inbox, now: Instant, auditId: string): Tables
    requires e.reconciliationId in t.recons
  {
    t.(recons := t.recons[e.reconciliationId := AmbiguousReconciliation(t.recons[e.reconciliationId], now)],
       inbox := t.inbox[q.id := AmbiguousInbox(q, now)],
       audits := t.audits[auditId := AmbiguityAudit(auditId, e, q)])
  }

  /** Two evidence rows never share a provider id and a deduplication key. */
  lemma KeysTellEvidenceApart(t: Tables, e: string, f: string)
    requires UniqueReconciliations(t) && UniqueEvidence(t) && ForeignKeys(t)
    requires e in t.evidence && f in t.evidence && e != f
    ensures ProviderOf(t, t.evidence[e]) != ProviderOf(t, t.evidence[f])
            || t.evidence[e].dedupKey != t.evidence[f].dedupKey
  {
  }

  /** Setting one evidence row aside leaves the snapshots of all the others current. */
  lemma SetAsideKeepsCurrent(t: Tables, e: Evidence, q: Inbox, now: Instant, auditId: string, p: Prepared)
    requires UniqueReconciliations(t) && UniqueEvidence(t) && ForeignKeys(t)
    requires e.id in t.evidence && t.evidence[e.id] == e
    requires q.id in t.inbox && t.inbox[q.id] == q && HasKey(q, ProviderOf(t, e), e.dedupKey)
    requires Current(t, p) && p.row.id != e.id
    ensures Current(SetAside(t, e, q, now, auditId), p)
  {
    KeysTellEvidenceApart(t, e.id, p.row.id);
    var u := SetAside(t, e, q, now, auditId);
    assert ProviderOf(u, p.row) == ProviderOf(t, p.row);
    assert forall k | k in u.inbox ::
      u.inbox[k].providerId == t.inbox[k].providerId && u.inbox[k].dedupKey == t.inbox[k].dedupKey;
  }

  lemma SetAsideScans(t0: Tables, t: Tables, e: Evidence, q: Inbox, now: Instant, auditId: string)
    requires Scanned(t0, t, now)
    requires e.reconciliationId in t.recons && q.id in t.inbox && t.inbox[q.id] == q
    requires t.recons[e.reconciliationId].state == Pending
    requires t.recons[e.reconciliationId].operational == Active
    requires q.state == InboxPending
    ensures Scanned(t0, SetAside(t, e, q, now, auditId), now)
  {
  }

  /** The scan after `n` rows: each is prepared, from a current snapshot, or left ambiguous. */
  ghost predicate ScanInvariant(t: Tables, rows: seq<string>, n: nat, prepared: seq<Prepared>)
    requires n <= |rows|
  {
    && AllCurrent(t, prepared)
    && (forall i | 0 <= i < |prepared| :: prepared[i].row.id in rows[..n])
    && (forall k | 0 <= k < n :: Prepares(prepared, rows[k]) || LeftAmbiguous(t, rows[k]))
  }

  ghost predicate Prepares(prepared: seq<Prepared>, e: string) {
    exists i :: 0 <= i < |prepared| && prepared[i].row.id == e
  }

  ghost predicate AllCurrent(t: Tables, prepared: seq<Prepared>) {
    && (forall i | 0 <= i < |prepared| :: Current(t, prepared[i]))
    && (forall i, j | 0 <= i < j < |prepared| :: prepared[i].row.id != prepared[j].row.id)
  }

  lemma ScanPrepares(t: Tables, rows: seq<string>, n: nat, prepared: seq<Prepared>, p: Prepared)
    requires NoDuplicates(rows) && n < |rows| && ScanInvariant(t, rows, n, prepared)
    requires p.row.id == rows[n] && Current(t, p)
    ensures ScanInvariant(t, rows, n + 1, prepared + [p])
  {
    hide Current, LeftAmbiguous;
    var more := prepared + [p];
    assert more[|prepared|] == p;
    assert rows[n] !in rows[..n];
    assert rows[..n + 1] == rows[..n] + [rows[n]];
    forall k | 0 <= k < n + 1
      ensures Prepares(more, rows[k]) || LeftAmbiguous(t, rows[k])
    {
      if k < n && Prepares(prepared, rows[k]) {
        var i :| 0 <= i < |prepared| && prepared[i].row.id == rows[k];
        assert more[i].row.id == rows[k];
      }
    }
  }

  lemma ScanSetsAside(t: Tables, rows: seq<string>, n: nat, prepared: seq<Prepared>, e: Evidence, q: Inbox,
        now: Instant, auditId: string)
    requires UniqueReconciliations(t) && UniqueEvidence(t) && ForeignKeys(t)
    requires NoDuplicates(rows) && n < |rows| && ScanInvariant(t, rows, n, prepared)
    requires e.id == rows[n] && e.id in t.evidence && t.evidence[e.id] == e && e.inboxId.None?
    requires e.reconciliationId in t.recons
    requires q.id in t.inbox && t.inbox[q.id] == q && HasKey(q, ProviderOf(t, e), e.dedupKey)
    ensures ScanInvariant(SetAside(t, e, q, now, auditId), rows, n + 1, prepared)
  {
    hide UniqueReconciliations, UniqueEvidence, ForeignKeys, Current;
    var u := SetAside(t, e, q, now, auditId);
    assert rows[n] !in rows[..n];
    assert rows[..n + 1] == rows[..n] + [rows[n]];
    forall i | 0 <= i < |prepared|
      ensures Current(u, prepared[i])
    {
      SetAsideKeepsCurrent(t, e, q, now, auditId, prepared[i]);
    }
    assert LeftAmbiguous(u, rows[n]);
    forall k | 0 <= k < n
      ensures Prepares(prepared, rows[k]) || LeftAmbiguous(u, rows[k])
    {
    }
  }

  // ----- writes of the backfill -----

  /** What the database itself checks when an evidence row is linked. */
  ghost predicate Linkable(t: Tables, p: Prepared) {
    && Current(t, p)
    && (p.existing.None? ==> p.inboxId !in t.inbox)
    && (forall e | e in t.evidence :: t.evidence[e].inboxId != Some(p.inboxId))
  }

  function LinkedInbox(t: Tables, p: Prepared): Inbox
    requires p.row.reconciliationId in t.recons
  {
    match p.existing
    case None => InboxFor(p.row, p.inboxId, ProviderOf(t, p.row))
    case Some(x) =>
      if x.state == InboxPending then CorrelatedInbox(x, p.row.reconciliationId, p.row.createdAt) else x
  }

  function Link(t: Tables, p: Prepared): Tables
    requires p.row.reconciliationId in t.recons
  {
    t.(inbox := t.inbox[p.inboxId := LinkedInbox(t, p)],
       evidence := t.evidence[p.row.id := p.row.(inboxId := Some(p.inboxId))])
  }

  ghost predicate Done(t: Tables, p: Prepared) {
    CorrelatedTo(t, p.row.id, p.inboxId) || ParkedAt(t, p.row.id, p.inboxId)
  }

  lemma LinkKeepsRows(t: Tables, p: Prepared)
    requires KeysMatch(t) && RowChecks(t) && Unclaimed(t) && Linkable(t, p)
    ensures KeysMatch(Link(t, p)) && RowChecks(Link(t, p)) && Unclaimed(Link(t, p))
  {
  }

  lemma LinkKeepsForeignKeys(t: Tables, p: Prepared)
    requires ForeignKeys(t) && Linkable(t, p)
    ensures ForeignKeys(Link(t, p))
  {
  }

  lemma LinkKeepsUniqueEvidence(t: Tables, p: Prepared)
    requires UniqueReconciliations(t) && UniqueEvidence(t) && Linkable(t, p)
    ensures UniqueReconciliations(Link(t, p)) && UniqueEvidence(Link(t, p))
  {
  }

  lemma LinkIsDone(t: Tables, p: Prepared)
    requires RowChecks(t) && Linkable(t, p)
    ensures Done(Link(t, p), p)
    ensures Kept(t, Link(t, p))
  {
  }

  lemma LinkKeepsConsistent(t: Tables, p: Prepared)
    requires Consistent(t) && Unclaimed(t) && Linkable(t, p)
    ensures Consistent(Link(t, p)) && Unclaimed(Link(t, p))
    ensures Kept(t, Link(t, p))
    ensures Done(Link(t, p), p)
  {
    hide KeysMatch, RowChecks, ForeignKeys, UniqueReconciliations, UniqueInbox, UniqueEvidence, Kept, Done, Linkable;
    LinkKeepsRows(t, p);
    LinkKeepsForeignKeys(t, p);
    LinkKeepsUniqueEvidence(t, p);
    LinkKeepsUniqueInbox(t, p);
    LinkIsDone(t, p);
  }

  lemma LinkKeepsUniqueInbox(t: Tables, p: Prepared)
    requires UniqueInbox(t) && Unclaimed(t) && Linkable(t, p)
    ensures UniqueInbox(Link(t, p))
  {
    var u := Link(t, p);
    forall j, k | j in u.inbox && k in u.inbox && j != k
      ensures u.inbox[j].providerId != u.inbox[k].providerId || u.inbox[j].dedupKey != u.inbox[k].dedupKey
    {
      if p.existing.Some? {
        assert t.inbox[j].providerId != t.inbox[k].providerId || t.inbox[j].dedupKey != t.inbox[k].dedupKey;
      }
    }
  }

  /** Linking one evidence row leaves the snapshots of the others current and their links alone. */
  lemma LinkKeepsOthers(t: Tables, p: Prepared, o: Prepared)
    requires UniqueReconciliations(t) && UniqueEvidence(t) && ForeignKeys(t)
    requires Linkable(t, p) && o.row.id != p.row.id
    ensures Current(t, o) ==> Current(Link(t, p), o)
    ensures Done(t, o) ==> Done(Link(t, p), o)
  {
    hide UniqueReconciliations, UniqueEvidence, ForeignKeys, Current, Done, Link;
    if Current(t, o) {
      LinkKeepsCurrent(t, p, o);
    }
    if Done(t, o) {
      LinkKeepsDone(t, p, o);
    }
  }

  lemma LinkKeepsCurrent(t: Tables, p: Prepared, o: Prepared)
    requires UniqueReconciliations(t) && UniqueEvidence(t) && ForeignKeys(t)
    requires Linkable(t, p) && o.row.id != p.row.id && Current(t, o)
    ensures Current(Link(t, p), o)
  {
    hide UniqueReconciliations, UniqueEvidence, ForeignKeys, SameEvent;
    KeysTellEvidenceApart(t, p.row.id, o.row.id);
  }

  lemma LinkKeepsDone(t: Tables, p: Prepared, o: Prepared)
    requires UniqueReconciliations(t) && UniqueEvidence(t) && ForeignKeys(t)
    requires Linkable(t, p) && o.row.id != p.row.id && Done(t, o)
    ensures Done(Link(t, p), o)
  {
    hide UniqueReconciliations, UniqueEvidence, ForeignKeys, SameEvent;
    KeysTellEvidenceApart(t, p.row.id, o.row.id);
  }

  /** The second loop after `n` links. */
  ghost predicate LinkInvariant(t0: Tables, t: Tables, prepared: seq<Prepared>, n: nat)
    requires n <= |prepared|
  {
    && Kept(t0, t)
    && t.recons == t0.recons
    && t.evidence.Keys == t0.evidence.Keys
    && (forall i | 0 <= i < n :: Done(t, prepared[i]))
    && (forall i | n <= i < |prepared| :: Current(t, prepared[i]))
    && (forall e | e in t0.evidence :: t.evidence[e] == t0.evidence[e] || Prepares(prepared, e))
  }

  lemma LinkStarts(t: Tables, prepared: seq<Prepared>)
    requires AllCurrent(t, prepared)
    ensures LinkInvariant(t, t, prepared, 0)
  {
  }

  lemma NextIsCurrent(t0: Tables, t: Tables, prepared: seq<Prepared>, n: nat)
    requires n < |prepared| && LinkInvariant(t0, t, prepared, n)
    ensures Current(t, prepared[n])
  {
  }

  lemma LinkAdvances(t0: Tables, t: Tables, prepared: seq<Prepared>, n: nat)
    requires n < |prepared| && LinkInvariant(t0, t, prepared, n)
    requires forall i, j | 0 <= i < j < |prepared| :: prepared[i].row.id != prepared[j].row.id
    requires Consistent(t) && Unclaimed(t) && Linkable(t, prepared[n])
    requires prepared[n].row.reconciliationId in t.recons
    ensures LinkInvariant(t0, Link(t, prepared[n]), prepared, n + 1)
  {
    hide Consistent, Unclaimed, Linkable, Kept, Done, Current, Link;
    var p := prepared[n];
    LinkKeepsConsistent(t, p);
    KeptIsTransitive(t0, t, Link(t, p));
    LinkKeepsAllOthers(t, prepared, n);
    LinkWritesOne(t, p);
    assert Prepares(prepared, p.row.id);
  }

  lemma LinkKeepsAllOthers(t: Tables, prepared: seq<Prepared>, n: nat)
    requires n < |prepared| && Consistent(t) && Linkable(t, prepared[n])
    requires prepared[n].row.reconciliationId in t.recons
    requires forall i, j | 0 <= i < j < |prepared| :: prepared[i].row.id != prepared[j].row.id
    ensures forall i | 0 <= i < |prepared| && i != n ::
      && (Current(t, prepared[i]) ==> Current(Link(t, prepared[n]), prepared[i]))
      && (Done(t, prepared[i]) ==> Done(Link(t, prepared[n]), prepared[i]))
  {
    hide Consistent, KeysMatch, RowChecks, ForeignKeys, UniqueReconciliations, UniqueInbox, UniqueEvidence;
    hide Linkable, Done, Current, Link;
    ConsistentParts(t);
    forall i | 0 <= i < |prepared| && i != n
      ensures Current(t, prepared[i]) ==> Current(Link(t, prepared[n]), prepared[i])
      ensures Done(t, prepared[i]) ==> Done(Link(t, prepared[n]), prepared[i])
    {
      LinkKeepsOthers(t, prepared[n], prepared[i]);
    }
  }

  lemma LinkWritesOne(t: Tables, p: Prepared)
    requires Linkable(t, p)
    ensures Link(t, p).recons == t.recons && Link(t, p).evidence.Keys == t.evidence.Keys
    ensures forall e | e in t.evidence && e != p.row.id :: Link(t, p).evidence[e] == t.evidence[e]
  {
  }

  lemma ConsistentParts(t: Tables)
    requires Consistent(t)
    ensures KeysMatch(t) && RowChecks(t) && ForeignKeys(t)
    ensures UniqueReconciliations(t) && UniqueInbox(t) && UniqueEvidence(t)
  {
    hide KeysMatch, RowChecks, ForeignKeys, UniqueReconciliations, UniqueInbox, UniqueEvidence;
  }

  lemma ScanStarts(t: Tables, rows: seq<string>, now: Instant)
    requires Consistent(t)
    ensures Scanned(t, t, now) && ScanInvariant(t, rows, 0, [])
  {
    hide Consistent, RowChecks, ForeignKeys, UniqueReconciliations, UniqueInbox, UniqueEvidence;
    ConsistentParts(t);
  }

  /** What the scan may rely on about the row it looks at. */
  lemma ScannedRow(t0: Tables, t: Tables, e: string, now: Instant)
    requires Consistent(t0) && Unclaimed(t0) && Scanned(t0, t, now)
    requires e in t.evidence
    ensures KeysMatch(t) && UniqueReconciliations(t) && UniqueEvidence(t) && ForeignKeys(t)
    ensures t.evidence[e].id == e && t.evidence[e].reconciliationId in t.recons
  {
    hide Scanned, Unclaimed, UniqueReconciliations, UniqueInbox, UniqueEvidence, RowChecks;
    ScannedKeepsConsistent(t0, t, now);
    ConsistentParts(t);
  }

  lemma FoundIsCurrent(t: Tables, p: Prepared)
    requires p.row.id in t.evidence && t.evidence[p.row.id] == p.row && p.row.inboxId.None?
    requires p.row.reconciliationId in t.recons
    requires match p.existing
             case None => forall q | q in t.inbox :: !HasKey(t.inbox[q], ProviderOf(t, p.row), p.row.dedupKey)
             case Some(x) =>
               && x.id == p.inboxId && x.id in t.inbox && t.inbox[x.id] == x
               && HasKey(x, ProviderOf(t, p.row), p.row.dedupKey) && SameEvent(p.row, x)
    ensures Current(t, p)
  {
  }

  // ----- when the backfill finishes -----

  /** Inbox row `q` has the provider id and key of evidence row `e`. */
  ghost predicate Keyed(t: Tables, e: string, q: string) {
    && e in t.evidence && t.evidence[e].reconciliationId in t.recons && q in t.inbox
    && HasKey(t.inbox[q], ProviderOf(t, t.evidence[e]), t.evidence[e].dedupKey)
  }

  ghost predicate Ambiguous(t: Tables, e: string) {
    exists q :: Keyed(t, e, q) && !SameEvent(t.evidence[e], t.inbox[q])
  }

  ghost predicate IsLinked(t: Tables, q: string) {
    exists e :: e in t.evidence && t.evidence[e].inboxId == Some(q)
  }

  function AmbiguityIdFor(e: string, stableId: (string, string) -> string): string {
    stableId("audit", "0030:ambiguous:" + e)
  }

  function InboxIdFor(e: string, stableId: (string, string) -> string): string {
    stableId("metainbox", e)
  }

  predicate InScope(t: Tables, outbox: map<string, Outbox>, e: Evidence) {
    && e.reconciliationId in t.recons
    && var r := t.recons[e.reconciliationId];
    && r.providerId != "" && r.outboxId in outbox && r.outboxId != "" && ExactScope(outbox[r.outboxId], r)
  }

  /** The evidence row's reconciliation and inbox row can be set aside. */
  ghost predicate CanSetAside(t: Tables, e: Evidence, q: Inbox, auditId: string) {
    && e.reconciliationId in t.recons
    && t.recons[e.reconciliationId].state == Pending && t.recons[e.reconciliationId].operational == Active
    && q.state == InboxPending && q.reconciliationId.None? && !IsLinked(t, q.id)
    && auditId !in t.audits
  }

  /** The scan does not block on evidence row `e` by itself. */
  ghost predicate ScanFine(t: Tables, outbox: map<string, Outbox>, e: string, stableId: (string, string) -> string) {
    && e in t.evidence && InScope(t, outbox, t.evidence[e])
    && forall q | Keyed(t, e, q) && !SameEvent(t.evidence[e], t.inbox[q]) ::
         CanSetAside(t, t.evidence[e], t.inbox[q], AmbiguityIdFor(e, stableId))
  }

  /** Nor because of another one. */
  ghost predicate ScanApart(t: Tables, e: string, f: string, stableId: (string, string) -> string) {
    e in t.evidence && f in t.evidence && Ambiguous(t, e) && Ambiguous(t, f) ==>
      t.evidence[e].reconciliationId != t.evidence[f].reconciliationId
        && AmbiguityIdFor(e, stableId) != AmbiguityIdFor(f, stableId)
  }

  ghost predicate ScanOk(t: Tables, outbox: map<string, Outbox>, rows: seq<string>, n: nat,
        stableId: (string, string) -> string)
    requires n <= |rows|
  {
    && (forall i | 0 <= i < n :: ScanFine(t, outbox, rows[i], stableId))
    && forall i, j | 0 <= i < j < n :: ScanApart(t, rows[i], rows[j], stableId)
  }

  /** What the scan of the first `n` rows changed, said by the tables it started from. */
  ghost predicate ScanTrack(t0: Tables, t: Tables, rows: seq<string>, n: nat, stableId: (string, string) -> string)
    requires n <= |rows|
  {
    && t.evidence == t0.evidence && t.recons.Keys == t0.recons.Keys && t.inbox.Keys == t0.inbox.Keys
    && RowsKnown(t0, rows)
    && TrackReconciliations(t0, t, rows, n)
    && TrackInbox(t0, t, rows, n)
    && TrackAudits(t0, t, rows, n, stableId)
  }

  ghost predicate RowsKnown(t0: Tables, rows: seq<string>) {
    forall i | 0 <= i < |rows| :: rows[i] in t0.evidence && t0.evidence[rows[i]].reconciliationId in t0.recons
  }

  ghost predicate TrackReconciliations(t0: Tables, t: Tables, rows: seq<string>, n: nat)
    requires n <= |rows| && RowsKnown(t0, rows) && t.recons.Keys == t0.recons.Keys
  {
    && (forall r | r in t0.recons :: t.recons[r] == t0.recons[r] || AmbiguousBefore(t0, rows, n, r))
    && forall i | 0 <= i < n && Ambiguous(t0, rows[i]) ::
         t.recons[t0.evidence[rows[i]].reconciliationId].operational == Quarantined
  }

  ghost predicate TrackInbox(t0: Tables, t: Tables, rows: seq<string>, n: nat)
    requires n <= |rows| && t.inbox.Keys == t0.inbox.Keys
  {
    forall k, q | n <= k < |rows| && Keyed(t0, rows[k], q) :: t.inbox[q] == t0.inbox[q]
  }

  ghost predicate TrackAudits(t0: Tables, t: Tables, rows: seq<string>, n: nat, stableId: (string, string) -> string)
    requires n <= |rows|
  {
    forall a :: a in t.audits <==> a in t0.audits || AuditedBefore(t0, rows, n, a, stableId)
  }

  ghost predicate AmbiguousBefore(t0: Tables, rows: seq<string>, n: nat, r: string)
    requires n <= |rows|
  {
    exists i ::
      0 <= i < n && rows[i] in t0.evidence && Ambiguous(t0, rows[i]) && t0.evidence[rows[i]].reconciliationId == r
  }

  ghost predicate AuditedBefore(t0: Tables, rows: seq<string>, n: nat, a: string, stableId: (string, string) -> string)
    requires n <= |rows|
  {
    exists i :: 0 <= i < n && Ambiguous(t0, rows[i]) && AmbiguityIdFor(rows[i], stableId) == a
  }

  /** What the method checks about the row it looks at. */
  ghost predicate Passes(t: Tables, outbox: map<string, Outbox>, e: Evidence, existing: Option<Inbox>, auditId: string)
  {
    InScope(t, outbox, e)
      && (existing.Some? && !SameEvent(e, existing.value) ==> CanSetAside(t, e, existing.value, auditId))
  }

  ghost predicate IsFound(t: Tables, e: string, existing: Option<Inbox>)
    requires e in t.evidence && t.evidence[e].reconciliationId in t.recons
  {
    match existing
    case None => forall q | q in t.inbox :: !HasKey(t.inbox[q], ProviderOf(t, t.evidence[e]), t.evidence[e].dedupKey)
    case Some(x) =>
      x.id in t.inbox && t.inbox[x.id] == x && HasKey(x, ProviderOf(t, t.evidence[e]), t.evidence[e].dedupKey)
  }

  /** Scanning changes neither who has which key nor what is in scope. */
  lemma ScanKeepsKeyed(t0: Tables, t: Tables, now: Instant, outbox: map<string, Outbox>, e: string, q: string)
    requires Scanned(t0, t, now)
    ensures Keyed(t, e, q) <==> Keyed(t0, e, q)
    ensures e in t0.evidence ==> (InScope(t, outbox, t.evidence[e]) <==> InScope(t0, outbox, t0.evidence[e]))
  {
  }

  /** The inbox row found for the next evidence row is the one it had at the start. */
  lemma NextFound(t0: Tables, t: Tables, rows: seq<string>, n: nat, now: Instant, outbox: map<string, Outbox>,
        existing: Option<Inbox>, stableId: (string, string) -> string)
    requires UniqueInbox(t0) && KeysMatch(t0) && Scanned(t0, t, now) && n < |rows|
    requires ScanTrack(t0, t, rows, n, stableId)
    requires rows[n] in t.evidence && t.evidence[rows[n]].reconciliationId in t.recons && IsFound(t, rows[n], existing)
    ensures existing.Some? ==> Keyed(t0, rows[n], existing.value.id) && t0.inbox[existing.value.id] == existing.value
    ensures existing.None? ==> forall q :: !Keyed(t0, rows[n], q)
    ensures forall q | Keyed(t0, rows[n], q) :: existing == Some(t0.inbox[q])
    ensures Ambiguous(t0, rows[n]) <==> existing.Some? && !SameEvent(t0.evidence[rows[n]], existing.value)
  {
    hide SameEvent, Scanned;
    var e := rows[n];
    forall q
      ensures Keyed(t, e, q) <==> Keyed(t0, e, q)
    {
      ScanKeepsKeyed(t0, t, now, outbox, e, q);
    }
    if existing.Some? {
      assert Keyed(t, e, existing.value.id);
    }
    forall q | Keyed(t0, e, q)
      ensures existing == Some(t0.inbox[q])
    {
      assert Keyed(t, e, q);
      if existing.Some? {
        assert t0.inbox[existing.value.id] == existing.value;
      }
    }
  }

  /** The scan passes the next row exactly when nothing blocks it in the tables of the start. */
  lemma ScanDecides(t0: Tables, t: Tables, outbox: map<string, Outbox>, rows: seq<string>, n: nat, now: Instant,
        existing: Option<Inbox>, stableId: (string, string) -> string)
    requires Scanned(t0, t, now) && n < |rows|
    requires ScanTrack(t0, t, rows, n, stableId) && ScanOk(t0, outbox, rows, n, stableId)
    requires existing.Some? ==> Keyed(t0, rows[n], existing.value.id) && t0.inbox[existing.value.id] == existing.value
    requires forall q | Keyed(t0, rows[n], q) :: existing == Some(t0.inbox[q])
    requires Ambiguous(t0, rows[n]) <==> existing.Some? && !SameEvent(t0.evidence[rows[n]], existing.value)
    ensures Passes(t, outbox, t.evidence[rows[n]], existing, AmbiguityIdFor(rows[n], stableId)) <==>
      ScanOk(t0, outbox, rows, n + 1, stableId)
  {
    hide Scanned, SameEvent, InScope, AmbiguityIdFor, Keyed, CanSetAside, Ambiguous, ScanFine;
    var e := rows[n];
    ScanKeepsKeyed(t0, t, now, outbox, e, "");
    ScanFineIff(t0, outbox, e, existing, stableId);
    if Ambiguous(t0, e) {
      SetAsideDecides(t0, t, rows, n, existing.value, stableId);
    } else {
      assert forall i | 0 <= i < n :: ScanApart(t0, rows[i], e, stableId);
    }
    OneMoreRow(t0, outbox, rows, n, stableId);
  }

  lemma ScanFineIff(t: Tables, outbox: map<string, Outbox>, e: string, existing: Option<Inbox>,
        stableId: (string, string) -> string)
    requires e in t.evidence
    requires existing.Some? ==> Keyed(t, e, existing.value.id) && t.inbox[existing.value.id] == existing.value
    requires forall q | Keyed(t, e, q) :: existing == Some(t.inbox[q])
    ensures ScanFine(t, outbox, e, stableId) <==>
      && InScope(t, outbox, t.evidence[e])
      && (existing.Some? && !SameEvent(t.evidence[e], existing.value) ==>
            CanSetAside(t, t.evidence[e], existing.value, AmbiguityIdFor(e, stableId)))
  {
    hide SameEvent, InScope, CanSetAside, AmbiguityIdFor;
  }

  lemma OneMoreRow(t: Tables, outbox: map<string, Outbox>, rows: seq<string>, n: nat,
        stableId: (string, string) -> string)
    requires n < |rows| && ScanOk(t, outbox, rows, n, stableId)
    ensures ScanOk(t, outbox, rows, n + 1, stableId) <==>
      ScanFine(t, outbox, rows[n], stableId) && forall i | 0 <= i < n :: ScanApart(t, rows[i], rows[n], stableId)
  {
    hide ScanFine, ScanApart;
  }

  lemma SetAsideDecides(t0: Tables, t: Tables, rows: seq<string>, n: nat, q: Inbox,
        stableId: (string, string) -> string)
    requires n < |rows| && ScanTrack(t0, t, rows, n, stableId) && Ambiguous(t0, rows[n])
    ensures CanSetAside(t, t.evidence[rows[n]], q, AmbiguityIdFor(rows[n], stableId)) <==>
      && CanSetAside(t0, t0.evidence[rows[n]], q, AmbiguityIdFor(rows[n], stableId))
      && forall i | 0 <= i < n :: ScanApart(t0, rows[i], rows[n], stableId)
  {
    hide Ambiguous, AmbiguityIdFor, Keyed;
    var r := t0.evidence[rows[n]].reconciliationId;
    assert IsLinked(t, q.id) <==> IsLinked(t0, q.id);
    if CanSetAside(t, t.evidence[rows[n]], q, AmbiguityIdFor(rows[n], stableId)) {
      forall i | 0 <= i < n
        ensures ScanApart(t0, rows[i], rows[n], stableId)
      {
        if Ambiguous(t0, rows[i]) {
          assert AuditedBefore(t0, rows, n, AmbiguityIdFor(rows[i], stableId), stableId);
        }
      }
      assert !AmbiguousBefore(t0, rows, n, r);
    }
    if forall i | 0 <= i < n :: ScanApart(t0, rows[i], rows[n], stableId) {
      assert !AmbiguousBefore(t0, rows, n, r);
      assert !AuditedBefore(t0, rows, n, AmbiguityIdFor(rows[n], stableId), stableId);
    }
  }

  lemma TrackStarts(t: Tables, rows: seq<string>, stableId: (string, string) -> string)
    requires ForeignKeys(t) && forall e | e in rows :: e in t.evidence
    ensures ScanTrack(t, t, rows, 0, stableId)
  {
    forall i | 0 <= i < |rows|
      ensures rows[i] in t.evidence && t.evidence[rows[i]].reconciliationId in t.recons
    {
      assert rows[i] in rows;
    }
  }

  lemma SameAmbiguous(t0: Tables, rows: seq<string>, n: nat, stableId: (string, string) -> string)
    requires n < |rows| && !Ambiguous(t0, rows[n])
    ensures forall r :: AmbiguousBefore(t0, rows, n + 1, r) <==> AmbiguousBefore(t0, rows, n, r)
    ensures forall a :: AuditedBefore(t0, rows, n + 1, a, stableId) <==> AuditedBefore(t0, rows, n, a, stableId)
  {
    hide Ambiguous, AmbiguityIdFor;
    forall r
      ensures AmbiguousBefore(t0, rows, n + 1, r) <==> AmbiguousBefore(t0, rows, n, r)
    {
      if AmbiguousBefore(t0, rows, n, r) {
        var i :| 0 <= i < n && rows[i] in t0.evidence && Ambiguous(t0, rows[i])
          && t0.evidence[rows[i]].reconciliationId == r;
        assert 0 <= i < n + 1 && Ambiguous(t0, rows[i]);
      }
    }
    forall a
      ensures AuditedBefore(t0, rows, n + 1, a, stableId) <==> AuditedBefore(t0, rows, n, a, stableId)
    {
      if AuditedBefore(t0, rows, n, a, stableId) {
        var i :| 0 <= i < n && Ambiguous(t0, rows[i]) && AmbiguityIdFor(rows[i], stableId) == a;
        assert 0 <= i < n + 1 && Ambiguous(t0, rows[i]);
      }
    }
  }

  /** A row that is prepared changes nothing. */
  lemma TrackPrepared(t0: Tables, t: Tables, rows: seq<string>, n: nat, stableId: (string, string) -> string)
    requires n < |rows| && ScanTrack(t0, t, rows, n, stableId) && !Ambiguous(t0, rows[n])
    ensures ScanTrack(t0, t, rows, n + 1, stableId)
  {
    hide Ambiguous, Keyed, AmbiguousBefore, AuditedBefore;
    SameAmbiguous(t0, rows, n, stableId);
  }

  lemma MoreAmbiguous(t0: Tables, rows: seq<string>, n: nat, stableId: (string, string) -> string)
    requires n < |rows| && rows[n] in t0.evidence && Ambiguous(t0, rows[n])
    ensures forall r :: AmbiguousBefore(t0, rows, n + 1, r) <==>
      AmbiguousBefore(t0, rows, n, r) || r == t0.evidence[rows[n]].reconciliationId
    ensures forall a :: AuditedBefore(t0, rows, n + 1, a, stableId) <==>
      AuditedBefore(t0, rows, n, a, stableId) || a == AmbiguityIdFor(rows[n], stableId)
  {
    hide Ambiguous, AmbiguityIdFor;
    forall r
      ensures AmbiguousBefore(t0, rows, n + 1, r) <==>
        AmbiguousBefore(t0, rows, n, r) || r == t0.evidence[rows[n]].reconciliationId
    {
      if AmbiguousBefore(t0, rows, n, r) {
        var i :| 0 <= i < n && rows[i] in t0.evidence && Ambiguous(t0, rows[i])
          && t0.evidence[rows[i]].reconciliationId == r;
        assert 0 <= i < n + 1 && Ambiguous(t0, rows[i]);
      }
      if r == t0.evidence[rows[n]].reconciliationId {
        assert 0 <= n < n + 1 && Ambiguous(t0, rows[n]);
      }
    }
    forall a
      ensures AuditedBefore(t0, rows, n + 1, a, stableId) <==>
        AuditedBefore(t0, rows, n, a, stableId) || a == AmbiguityIdFor(rows[n], stableId)
    {
      if AuditedBefore(t0, rows, n, a, stableId) {
        var i :| 0 <= i < n && Ambiguous(t0, rows[i]) && AmbiguityIdFor(rows[i], stableId) == a;
        assert 0 <= i < n + 1 && Ambiguous(t0, rows[i]);
      }
      if a == AmbiguityIdFor(rows[n], stableId) {
        assert 0 <= n < n + 1 && Ambiguous(t0, rows[n]);
      }
    }
  }

  /** The inbox rows found for later evidence rows are other ones. */
  lemma SetAsideSparesOthers(t0: Tables, t: Tables, rows: seq<string>, n: nat, q: Inbox, now: Instant)
    requires UniqueReconciliations(t0) && UniqueEvidence(t0) && ForeignKeys(t0) && NoDuplicates(rows)
    requires n < |rows| && t.inbox.Keys == t0.inbox.Keys && TrackInbox(t0, t, rows, n) && Keyed(t0, rows[n], q.id)
    ensures forall k, x | n + 1 <= k < |rows| && Keyed(t0, rows[k], x) ::
      t.inbox[q.id := AmbiguousInbox(q, now)][x] == t0.inbox[x]
  {
    hide UniqueReconciliations, UniqueEvidence, ForeignKeys, AmbiguousInbox;
    forall k, x | n + 1 <= k < |rows| && Keyed(t0, rows[k], x)
      ensures t.inbox[q.id := AmbiguousInbox(q, now)][x] == t0.inbox[x]
    {
      KeysTellEvidenceApart(t0, rows[n], rows[k]);
      assert x != q.id;
    }
  }

  lemma SetAsideTracksReconciliation(t0: Tables, t: Tables, u: Tables, rows: seq<string>, n: nat, now: Instant,
        stableId: (string, string) -> string)
    requires n < |rows| && RowsKnown(t0, rows) && t.recons.Keys == t0.recons.Keys
    requires TrackReconciliations(t0, t, rows, n) && Ambiguous(t0, rows[n])
    requires var r := t0.evidence[rows[n]].reconciliationId;
      u.recons == t.recons[r := AmbiguousReconciliation(t.recons[r], now)]
    ensures u.recons.Keys == t0.recons.Keys && TrackReconciliations(t0, u, rows, n + 1)
  {
    hide Ambiguous, AmbiguityIdFor, AmbiguousBefore, AuditedBefore;
    MoreAmbiguous(t0, rows, n, stableId);
    var r := t0.evidence[rows[n]].reconciliationId;
    assert u.recons[r].operational == Quarantined;
    forall x | x in t0.recons
      ensures u.recons[x] == t0.recons[x] || AmbiguousBefore(t0, rows, n + 1, x)
    {
      assert AmbiguousBefore(t0, rows, n + 1, x) <==> AmbiguousBefore(t0, rows, n, x) || x == r;
    }
  }

  lemma SetAsideTracksAudit(t0: Tables, t: Tables, u: Tables, rows: seq<string>, n: nat, row: Audit,
        stableId: (string, string) -> string)
    requires n < |rows| && rows[n] in t0.evidence && TrackAudits(t0, t, rows, n, stableId) && Ambiguous(t0, rows[n])
    requires u.audits == t.audits[AmbiguityIdFor(rows[n], stableId) := row]
    ensures TrackAudits(t0, u, rows, n + 1, stableId)
  {
    hide Ambiguous, AmbiguityIdFor, AmbiguousBefore, AuditedBefore;
    MoreAmbiguous(t0, rows, n, stableId);
    forall a
      ensures a in u.audits <==> a in t0.audits || AuditedBefore(t0, rows, n + 1, a, stableId)
    {
      assert a in u.audits <==> a in t.audits || a == AmbiguityIdFor(rows[n], stableId);
    }
  }

  /** A row that is set aside takes its reconciliation, its inbox row and one audit id. */
  lemma TrackSetAside(t0: Tables, t: Tables, rows: seq<string>, n: nat, q: Inbox, now: Instant,
        stableId: (string, string) -> string)
    requires UniqueReconciliations(t0) && UniqueEvidence(t0) && ForeignKeys(t0) && NoDuplicates(rows)
    requires n < |rows| && ScanTrack(t0, t, rows, n, stableId) && Ambiguous(t0, rows[n])
    requires Keyed(t0, rows[n], q.id)
    ensures ScanTrack(t0, SetAside(t, t.evidence[rows[n]], q, now, AmbiguityIdFor(rows[n], stableId)),
      rows, n + 1, stableId)
  {
    hide Ambiguous, AmbiguityIdFor, UniqueReconciliations, UniqueEvidence, ForeignKeys, NoDuplicates, AmbiguousInbox,
         AmbiguousReconciliation, TrackReconciliations, TrackAudits;
    assert rows[n] in t0.evidence && t0.evidence[rows[n]].reconciliationId in t0.recons;
    var auditId := AmbiguityIdFor(rows[n], stableId);
    var u := SetAside(t, t.evidence[rows[n]], q, now, auditId);
    SetAsideSparesOthers(t0, t, rows, n, q, now);
    SetAsideTracksReconciliation(t0, t, u, rows, n, now, stableId);
    SetAsideTracksAudit(t0, t, u, rows, n, AmbiguityAudit(auditId, t.evidence[rows[n]], q), stableId);
    assert u.inbox == t.inbox[q.id := AmbiguousInbox(q, now)] && q.id in t.inbox;
  }

  /** What was prepared, said by the tables of the start. */
  ghost predicate PreparedTrack(t0: Tables, rows: seq<string>, n: nat, prepared: seq<Prepared>,
        stableId: (string, string) -> string)
    requires n <= |rows|
  {
    && (forall i | 0 <= i < |prepared| :: PreparedFor(t0, prepared[i], stableId) && prepared[i].row.id in rows[..n])
    && forall k | 0 <= k < n :: Ambiguous(t0, rows[k]) || Prepares(prepared, rows[k])
  }

  ghost predicate PreparedFor(t0: Tables, p: Prepared, stableId: (string, string) -> string) {
    && !Ambiguous(t0, p.row.id)
    && match p.existing
       case None => p.inboxId == InboxIdFor(p.row.id, stableId) && forall q :: !Keyed(t0, p.row.id, q)
       case Some(_) => Keyed(t0, p.row.id, p.inboxId)
  }

  lemma TrackMore(t0: Tables, rows: seq<string>, n: nat, prepared: seq<Prepared>, p: Prepared,
        stableId: (string, string) -> string)
    requires n < |rows| && PreparedTrack(t0, rows, n, prepared, stableId)
    requires PreparedFor(t0, p, stableId) && p.row.id == rows[n]
    ensures PreparedTrack(t0, rows, n + 1, prepared + [p], stableId)
  {
    hide PreparedFor, Ambiguous;
    var more := prepared + [p];
    assert rows[..n + 1] == rows[..n] + [rows[n]] && more[|prepared|] == p;
    forall k | 0 <= k < n + 1 && !Ambiguous(t0, rows[k])
      ensures Prepares(more, rows[k])
    {
      if k < n {
        var i :| 0 <= i < |prepared| && prepared[i].row.id == rows[k];
        assert more[i].row.id == rows[k];
      }
    }
  }

  lemma TrackNoMore(t0: Tables, rows: seq<string>, n: nat, prepared: seq<Prepared>,
        stableId: (string, string) -> string)
    requires n < |rows| && PreparedTrack(t0, rows, n, prepared, stableId) && Ambiguous(t0, rows[n])
    ensures PreparedTrack(t0, rows, n + 1, prepared, stableId)
  {
    hide PreparedFor, Ambiguous;
    assert rows[..n + 1] == rows[..n] + [rows[n]];
  }

  lemma ScanOkIsMonotone(t: Tables, outbox: map<string, Outbox>, rows: seq<string>, n: nat,
        stableId: (string, string) -> string)
    requires n <= |rows| && ScanOk(t, outbox, rows, |rows|, stableId)
    ensures ScanOk(t, outbox, rows, n, stableId)
  {
    hide ScanFine, ScanApart;
  }

  // ----- when the links can be written -----

  ghost predicate LinkFine(t: Tables, p: Prepared) {
    if p.existing.None? then p.inboxId !in t.inbox else !IsLinked(t, p.inboxId)
  }

  ghost predicate LinkApart(p: Prepared, o: Prepared) {
    p.existing.None? && o.existing.None? ==> p.inboxId != o.inboxId
  }

  ghost predicate LinkOk(t: Tables, prepared: seq<Prepared>, n: nat)
    requires n <= |prepared|
  {
    && (forall i | 0 <= i < n :: LinkFine(t, prepared[i]))
    && forall i, j | 0 <= i < j < n :: LinkApart(prepared[i], prepared[j])
  }

  /** Which inbox rows exist, and which are linked, after the first `n` links. */
  ghost predicate LinksGrown(t0: Tables, t: Tables, prepared: seq<Prepared>, n: nat)
    requires n <= |prepared|
  {
    && (forall q :: q in t.inbox <==> q in t0.inbox || exists i :: 0 <= i < n && prepared[i].inboxId == q)
    && forall q :: IsLinked(t, q) <==> IsLinked(t0, q) || exists i :: 0 <= i < n && prepared[i].inboxId == q
  }

  /** Two evidence rows never find the same inbox row. */
  lemma FoundApart(t: Tables, p: Prepared, o: Prepared)
    requires UniqueReconciliations(t) && UniqueEvidence(t) && ForeignKeys(t)
    requires Current(t, p) && Current(t, o) && p.row.id != o.row.id && p.existing.Some? && o.existing.Some?
    ensures p.inboxId != o.inboxId
  {
    KeysTellEvidenceApart(t, p.row.id, o.row.id);
  }

  lemma LinkDecides(t0: Tables, t: Tables, prepared: seq<Prepared>, n: nat)
    requires Consistent(t0) && AllCurrent(t0, prepared) && n < |prepared|
    requires LinksGrown(t0, t, prepared, n) && LinkOk(t0, prepared, n)
    requires ForeignKeys(t)
    ensures (prepared[n].existing.None? && prepared[n].inboxId in t.inbox) || IsLinked(t, prepared[n].inboxId)
       <==> !LinkOk(t0, prepared, n + 1)
  {
    hide Consistent, LinksGrown, LinkOk, AllCurrent, IsLinked;
    if prepared[n].existing.None? {
      LinkedIsThere(t, prepared[n].inboxId);
      NewIdDecides(t0, t, prepared, n);
    } else {
      OldIdDecides(t0, t, prepared, n);
    }
  }

  lemma LinkedIsThere(t: Tables, q: string)
    requires ForeignKeys(t)
    ensures IsLinked(t, q) ==> q in t.inbox
  {
  }

  lemma OldIdDecides(t0: Tables, t: Tables, prepared: seq<Prepared>, n: nat)
    requires Consistent(t0) && AllCurrent(t0, prepared) && n < |prepared| && prepared[n].existing.Some?
    requires LinksGrown(t0, t, prepared, n) && LinkOk(t0, prepared, n)
    ensures IsLinked(t, prepared[n].inboxId) <==> !LinkOk(t0, prepared, n + 1)
  {
    hide Consistent, KeysMatch, RowChecks, UniqueInbox, UniqueReconciliations, UniqueEvidence, ForeignKeys, IsLinked;
    ConsistentParts(t0);
    var p := prepared[n];
    assert Current(t0, p);
    forall i | 0 <= i < n
      ensures prepared[i].inboxId != p.inboxId
    {
      assert Current(t0, prepared[i]);
      if prepared[i].existing.Some? {
        FoundApart(t0, prepared[i], p);
      } else {
        assert LinkFine(t0, prepared[i]);
      }
    }
    assert IsLinked(t, p.inboxId) <==> IsLinked(t0, p.inboxId);
    assert forall i | 0 <= i < n :: LinkApart(prepared[i], p);
  }

  lemma NewIdDecides(t0: Tables, t: Tables, prepared: seq<Prepared>, n: nat)
    requires n < |prepared| && AllCurrent(t0, prepared) && LinksGrown(t0, t, prepared, n) && LinkOk(t0, prepared, n)
    requires prepared[n].existing.None?
    ensures prepared[n].inboxId in t.inbox <==> !LinkOk(t0, prepared, n + 1)
  {
    hide IsLinked;
    forall i | 0 <= i < n && prepared[i].existing.Some?
      ensures prepared[i].inboxId in t0.inbox
    {
      assert Current(t0, prepared[i]);
    }
  }

  lemma LinksGrow(t0: Tables, t: Tables, prepared: seq<Prepared>, n: nat)
    requires n < |prepared| && LinksGrown(t0, t, prepared, n) && Linkable(t, prepared[n])
    ensures LinksGrown(t0, Link(t, prepared[n]), prepared, n + 1)
  {
    var p := prepared[n];
    var u := Link(t, p);
    forall q
      ensures IsLinked(u, q) <==> IsLinked(t, q) || q == p.inboxId
    {
      if IsLinked(t, q) {
        var e :| e in t.evidence && t.evidence[e].inboxId == Some(q);
        assert u.evidence[e].inboxId == Some(q);
      }
      assert u.evidence[p.row.id].inboxId == Some(p.inboxId);
    }
  }

  lemma LinkOkIsMonotone(t: Tables, prepared: seq<Prepared>, n: nat)
    requires n <= |prepared| && LinkOk(t, prepared, |prepared|)
    ensures LinkOk(t, prepared, n)
  {
    hide LinkFine, LinkApart;
  }

  ghost predicate Unlinked(t: Tables, e: string) {
    e in t.evidence && t.evidence[e].inboxId.None?
  }

  ghost predicate NoInbox(t: Tables, e: string) {
    forall q :: !Keyed(t, e, q)
  }

  /**
   Nothing blocks the backfill: every unlinked evidence row is in scope; an inbox row found
   for it is not linked already, and can be set aside with its reconciliation if it does not
   fit; the key of an inbox row to be made is free; and no two rows want the same
   reconciliation set aside, or the same key.
   */
  ghost predicate BackfillClear(t: Tables, outbox: map<string, Outbox>, stableId: (string, string) -> string) {
    && (forall e | Unlinked(t, e) :: ScanFine(t, outbox, e, stableId) && LinkFineFor(t, e, stableId))
    && forall e, f | Unlinked(t, e) && Unlinked(t, f) && e != f ::
         ScanApart(t, e, f, stableId) && LinkApartFor(t, e, f, stableId)
  }

  ghost predicate LinkFineFor(t: Tables, e: string, stableId: (string, string) -> string) {
    !Ambiguous(t, e) ==>
      && (NoInbox(t, e) ==> InboxIdFor(e, stableId) !in t.inbox)
      && forall q | Keyed(t, e, q) :: !IsLinked(t, q)
  }

  ghost predicate LinkApartFor(t: Tables, e: string, f: string, stableId: (string, string) -> string) {
    !Ambiguous(t, e) && !Ambiguous(t, f) && NoInbox(t, e) && NoInbox(t, f) ==>
      InboxIdFor(e, stableId) != InboxIdFor(f, stableId)
  }

  lemma AnyScanOrder(t: Tables, outbox: map<string, Outbox>, rows: seq<string>, stableId: (string, string) -> string)
    requires NoDuplicates(rows) && forall e :: e in rows <==> Unlinked(t, e)
    ensures ScanOk(t, outbox, rows, |rows|, stableId) <==>
      && (forall e | Unlinked(t, e) :: ScanFine(t, outbox, e, stableId))
      && forall e, f | Unlinked(t, e) && Unlinked(t, f) && e != f :: ScanApart(t, e, f, stableId)
  {
    hide ScanFine, Ambiguous, AmbiguityIdFor, Unlinked;
    if ScanOk(t, outbox, rows, |rows|, stableId) {
      forall e | Unlinked(t, e)
        ensures ScanFine(t, outbox, e, stableId)
      {
        var i :| 0 <= i < |rows| && rows[i] == e;
      }
      forall e, f | Unlinked(t, e) && Unlinked(t, f) && e != f
        ensures ScanApart(t, e, f, stableId)
      {
        var i :| 0 <= i < |rows| && rows[i] == e;
        var j :| 0 <= j < |rows| && rows[j] == f;
        assert if i < j then ScanApart(t, rows[i], rows[j], stableId) else ScanApart(t, rows[j], rows[i], stableId);
      }
    } else {
      assert forall i | 0 <= i < |rows| :: rows[i] in rows;
    }
  }

  /** The links of what was prepared can be written exactly when those of all evidence rows that fit can. */
  lemma LinkOkIff(t0: Tables, t1: Tables, rows: seq<string>, prepared: seq<Prepared>,
        stableId: (string, string) -> string)
    requires UniqueInbox(t0) && KeysMatch(t0)
    requires t1.evidence == t0.evidence && t1.inbox.Keys == t0.inbox.Keys
    requires forall e :: e in rows <==> Unlinked(t0, e)
    requires PreparedTrack(t0, rows, |rows|, prepared, stableId)
    requires forall i, j | 0 <= i < j < |prepared| :: prepared[i].row.id != prepared[j].row.id
    ensures LinkOk(t1, prepared, |prepared|) <==>
      && (forall e | Unlinked(t0, e) :: LinkFineFor(t0, e, stableId))
      && forall e, f | Unlinked(t0, e) && Unlinked(t0, f) && e != f :: LinkApartFor(t0, e, f, stableId)
  {
    hide Ambiguous, Keyed, Unlinked, UniqueInbox, InboxIdFor;
    assert rows[..|rows|] == rows;
    forall i | 0 <= i < |prepared|
      ensures Unlinked(t0, prepared[i].row.id)
      ensures LinkFine(t1, prepared[i]) <==> LinkFineFor(t0, prepared[i].row.id, stableId)
    {
      assert PreparedFor(t0, prepared[i], stableId) && prepared[i].row.id in rows;
      FineAlike(t0, t1, prepared[i], stableId);
    }
    forall i, j | 0 <= i < j < |prepared|
      ensures LinkApart(prepared[i], prepared[j]) <==>
        LinkApartFor(t0, prepared[i].row.id, prepared[j].row.id, stableId)
    {
      ApartAlike(t0, prepared[i], prepared[j], stableId);
    }
    if LinkOk(t1, prepared, |prepared|) {
      forall e | Unlinked(t0, e) && !Ambiguous(t0, e)
        ensures Prepares(prepared, e)
      {
        var k :| 0 <= k < |rows| && rows[k] == e;
      }
      forall e | Unlinked(t0, e)
        ensures LinkFineFor(t0, e, stableId)
      {
        if !Ambiguous(t0, e) {
          var i :| 0 <= i < |prepared| && prepared[i].row.id == e;
        }
      }
      forall e, f | Unlinked(t0, e) && Unlinked(t0, f) && e != f
        ensures LinkApartFor(t0, e, f, stableId)
      {
        if !Ambiguous(t0, e) && !Ambiguous(t0, f) {
          var i :| 0 <= i < |prepared| && prepared[i].row.id == e;
          var j :| 0 <= j < |prepared| && prepared[j].row.id == f;
          assert if i < j then LinkApart(prepared[i], prepared[j]) else LinkApart(prepared[j], prepared[i]);
        }
      }
    }
  }

  lemma FineAlike(t0: Tables, t1: Tables, p: Prepared, stableId: (string, string) -> string)
    requires UniqueInbox(t0) && t1.evidence == t0.evidence && t1.inbox.Keys == t0.inbox.Keys
    requires PreparedFor(t0, p, stableId)
    ensures LinkFine(t1, p) <==> LinkFineFor(t0, p.row.id, stableId)
  {
    hide Ambiguous;
    assert forall q :: IsLinked(t1, q) <==> IsLinked(t0, q);
    if p.existing.Some? {
      forall q | Keyed(t0, p.row.id, q)
        ensures q == p.inboxId
      {
      }
    }
  }

  lemma ApartAlike(t0: Tables, p: Prepared, o: Prepared, stableId: (string, string) -> string)
    requires PreparedFor(t0, p, stableId) && PreparedFor(t0, o, stableId)
    ensures LinkApart(p, o) <==> LinkApartFor(t0, p.row.id, o.row.id, stableId)
  {
    hide Ambiguous, Keyed;
  }

  lemma NothingScanned(t: Tables, outbox: map<string, Outbox>, rows: seq<string>, stableId: (string, string) -> string)
    ensures ScanOk(t, outbox, rows, 0, stableId) && PreparedTrack(t, rows, 0, [], stableId)
  {
  }

  lemma BlockedScan(t: Tables, outbox: map<string, Outbox>, rows: seq<string>, n: nat,
        stableId: (string, string) -> string)
    requires n < |rows| && !ScanOk(t, outbox, rows, n + 1, stableId)
    ensures !ScanOk(t, outbox, rows, |rows|, stableId)
  {
    hide ScanOk;
    if ScanOk(t, outbox, rows, |rows|, stableId) {
      ScanOkIsMonotone(t, outbox, rows, n + 1, stableId);
    }
  }

  lemma OutOfScope(t0: Tables, t: Tables, outbox: map<string, Outbox>, rows: seq<string>, n: nat, now: Instant,
        stableId: (string, string) -> string)
    requires n < |rows| && Scanned(t0, t, now) && rows[n] in t0.evidence && !InScope(t, outbox, t.evidence[rows[n]])
    ensures !ScanOk(t0, outbox, rows, |rows|, stableId)
  {
    ScanKeepsKeyed(t0, t, now, outbox, rows[n], "");
    assert !ScanFine(t0, outbox, rows[n], stableId);
  }

  lemma NoLinkYet(t: Tables, prepared: seq<Prepared>)
    ensures LinkOk(t, prepared, 0) && LinksGrown(t, t, prepared, 0)
  {
  }

  lemma PreparedApart(t: Tables, prepared: seq<Prepared>)
    requires AllCurrent(t, prepared)
    ensures forall i, j | 0 <= i < j < |prepared| :: prepared[i].row.id != prepared[j].row.id
  {
  }

  lemma ScanKeepsTables(t0: Tables, t: Tables, now: Instant)
    requires Scanned(t0, t, now)
    ensures t.evidence == t0.evidence && t.inbox.Keys == t0.inbox.Keys
  {
  }

  lemma ScanFinishes(t0: Tables, t: Tables, rows: seq<string>, prepared: seq<Prepared>, now: Instant)
    requires Consistent(t0) && Unclaimed(t0) && Scanned(t0, t, now)
    requires ScanInvariant(t, rows, |rows|, prepared)
    ensures Consistent(t) && Unclaimed(t) && AllCurrent(t, prepared)
  {
    hide Consistent, Unclaimed, Scanned, AllCurrent;
    ScannedKeepsConsistent(t0, t, now);
  }

  /** Both loops together: what was prepared is linked, and what was set aside stays so. */
  lemma BackfillFinishes(t0: Tables, t1: Tables, t: Tables, rows: seq<string>, prepared: seq<Prepared>, now: Instant)
    requires Scanned(t0, t1, now) && ScanInvariant(t1, rows, |rows|, prepared)
    requires LinkInvariant(t1, t, prepared, |prepared|)
    requires forall e | e in t0.evidence && t0.evidence[e].inboxId.None? :: e in rows
    ensures Kept(t0, t) && t.evidence.Keys == t0.evidence.Keys
    ensures forall e | e in t0.evidence && t0.evidence[e].inboxId.None? :: Backfilled(t, e)
  {
    hide Kept, Current, CorrelatedTo, ParkedAt, LinkedTo;
    ScannedKeeps(t0, t1, now);
    KeptIsTransitive(t0, t1, t);
    forall e | e in t0.evidence && t0.evidence[e].inboxId.None?
      ensures Backfilled(t, e)
    {
      var k :| 0 <= k < |rows| && rows[k] == e;
      if Prepares(prepared, e) {
        var i :| 0 <= i < |prepared| && prepared[i].row.id == e;
        assert Done(t, prepared[i]);
      } else {
        assert LeftAmbiguous(t1, e);
      }
    }
  }

  lemma KeptIsTransitive(t0: Tables, t: Tables, u: Tables)
    requires Kept(t0, t) && Kept(t, u)
    ensures Kept(t0, u)
  {
  }
}
