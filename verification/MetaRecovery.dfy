/**
 The evidence half of migration 0030, as it runs: the backfill, then the recovery of
 quarantined inbox rows, inside one transaction. A block puts every table back. The claim
 columns do not exist yet, and the inbox and evidence triggers are disabled around the
 writes that need it.
 */
module MetaRecovery {
  import opened Common
  import opened MetaTables
  import opened MetaBackfill
  import opened MetaCorrelation
  import opened MetaOutcome
  import opened MetaSettlement
  import opened MetaColumns
  import MetaLifecycle

  class MetaDatabase {
    var recons: map<string, Reconciliation>
    var inbox: map<string, Inbox>
    var evidence: map<string, Evidence>
    var audits: map<string, Audit>
    const outbox: map<string, Outbox>

    function Contents(): Tables
      reads this
    {
      Tables(recons, inbox, evidence, audits)
    }

    constructor (t: Tables, outbox: map<string, Outbox>)
      ensures Contents() == t && this.outbox == outbox
    {
      recons, inbox, evidence, audits := t.recons, t.inbox, t.evidence, t.audits;
      this.outbox := outbox;
    }

    method Rollback(t: Tables)
      modifies this
      ensures Contents() == t
    {
      recons, inbox, evidence, audits := t.recons, t.inbox, t.evidence, t.audits;
    }

    /** SELECT ... FROM meta_callback_inbox by its unique key. */
    method FindInbox(providerId: string, dedupKey: string) returns (found: Option<Inbox>)
      requires KeysMatch(Contents())
      ensures match found
        case None => forall q | q in inbox :: !HasKey(inbox[q], providerId, dedupKey)
        case Some(x) => x.id in inbox && inbox[x.id] == x && HasKey(x, providerId, dedupKey)
    {
      if q :| q in inbox && HasKey(inbox[q], providerId, dedupKey) {
        found := Some(inbox[q]);
      } else {
        found := None;
      }
    }

    /** Sets the reconciliation of `e` and the inbox row `q` aside, or reports a block. */
    method QuarantineAmbiguity(e: Evidence, q: Inbox, now: Instant, auditId: string) returns (ok: bool)
      requires e.reconciliationId in recons
      modifies this
      ensures ok <==> CanSetAside(old(Contents()), e, q, auditId)
      ensures !ok ==> Contents() == old(Contents())
      ensures ok ==> Contents() == SetAside(old(Contents()), e, q, now, auditId)
    {
      var r := recons[e.reconciliationId];
      ok := && r.state == Pending
            && r.operational == Active
            && q.state == InboxPending
            && q.reconciliationId.None?
            && (forall k | k in evidence :: evidence[k].inboxId != Some(q.id))
            && auditId !in audits;
      if ok {
        recons := recons[e.reconciliationId := AmbiguousReconciliation(r, now)];
        inbox := inbox[q.id := AmbiguousInbox(q, now)];
        audits := audits[auditId := AmbiguityAudit(auditId, e, q)];
      }
    }

    /**
     First loop: every unlinked evidence row is prepared for linking, or its inbox row and
     its reconciliation are set aside as ambiguous. A block leaves partial changes to undo.
     */
    method ScanEvidence(rows: seq<string>, now: Instant, stableId: (string, string) -> string)
        returns (ok: bool, prepared: seq<Prepared>)
      requires Consistent(Contents()) && Unclaimed(Contents())
      requires NoDuplicates(rows)
      requires forall e | e in rows :: e in evidence && evidence[e].inboxId.None?
      modifies this
      ensures ok <==> ScanOk(old(Contents()), outbox, rows, |rows|, stableId)
      ensures ok ==> Scanned(old(Contents()), Contents(), now)
      ensures ok ==> ScanInvariant(Contents(), rows, |rows|, prepared)
      ensures ok ==> PreparedTrack(old(Contents()), rows, |rows|, prepared, stableId)
      ensures ok ==> ScanTrack(old(Contents()), Contents(), rows, |rows|, stableId)
      ensures ok ==> ScanExact(old(Contents()), Contents(), rows, |rows|, now, stableId)
    {
      hide Misfit, ScanExact;
      hide Consistent, Unclaimed, Scanned, ScanInvariant, Current, ScanTrack, PreparedTrack, ScanOk, Ambiguous,
           SameEvent, SetAside, Keyed;
      hide RowChecks, UniqueReconciliations, UniqueInbox, UniqueEvidence, ForeignKeys;
      ghost var t0 := Contents();
      prepared := [];
      ScanStarts(t0, rows, now);
      ConsistentParts(t0);
      TrackStarts(t0, rows, stableId);
      NothingScanned(t0, outbox, rows, stableId);
      ExactStarts(t0, rows, now, stableId);
      for n := 0 to |rows|
        invariant Scanned(t0, Contents(), now)
        invariant ScanInvariant(Contents(), rows, n, prepared)
        invariant evidence == t0.evidence
        invariant ScanTrack(t0, Contents(), rows, n, stableId) && PreparedTrack(t0, rows, n, prepared, stableId)
        invariant ScanOk(t0, outbox, rows, n, stableId)
        invariant ScanExact(t0, Contents(), rows, n, now, stableId)
      {
        ghost var t := Contents();
        var row := evidence[rows[n]];
        ScannedRow(t0, t, rows[n], now);
        var r := recons[row.reconciliationId];
        if r.providerId == "" || r.outboxId !in outbox || r.outboxId == "" || !ExactScope(outbox[r.outboxId], r) {
          OutOfScope(t0, t, outbox, rows, n, now, stableId);
          return false, prepared;
        }
        var existing := FindInbox(r.providerId, row.dedupKey);
        NextFound(t0, t, rows, n, now, outbox, existing, stableId);
        ScanDecides(t0, t, outbox, rows, n, now, existing, stableId);
        if existing.Some? && !SameEvent(row, existing.value) {
          var auditId := stableId("audit", "0030:ambiguous:" + row.id);
          ok := QuarantineAmbiguity(row, existing.value, now, auditId);
          if !ok {
            BlockedScan(t0, outbox, rows, n, stableId);
            return;
          }
          FoundMisfit(t0, rows[n], existing.value);
          ExactSetAside(t0, t, rows, n, existing.value, now, stableId);
          TrackSetAside(t0, t, rows, n, existing.value, now, stableId);
          TrackNoMore(t0, rows, n, prepared, stableId);
          SetAsideScans(t0, t, row, existing.value, now, auditId);
          ScanSetsAside(t, rows, n, prepared, row, existing.value, now, auditId);
        } else {
          var inboxId := if existing.Some? then existing.value.id else stableId("metainbox", row.id);
          var p := Prepared(row, existing, inboxId);
          FoundIsCurrent(t, p);
          ScanPrepares(t, rows, n, prepared, p);
          ExactPrepared(t0, t, rows, n, now, stableId);
          TrackPrepared(t0, t, rows, n, stableId);
          TrackMore(t0, rows, n, prepared, p, stableId);
          prepared := prepared + [p];
        }
      }
      ok := true;
    }

    /** Second loop: link what was prepared. The database refuses a key that is taken. */
    method LinkEvidence(prepared: seq<Prepared>) returns (ok: bool)
      requires Consistent(Contents()) && Unclaimed(Contents())
      requires AllCurrent(Contents(), prepared)
      modifies this
      ensures ok <==> LinkOk(old(Contents()), prepared, |prepared|)
      ensures ok ==> Consistent(Contents()) && Unclaimed(Contents())
      ensures ok ==> LinkInvariant(old(Contents()), Contents(), prepared, |prepared|)
      ensures ok ==> LinksGrown(old(Contents()), Contents(), prepared, |prepared|)
      ensures ok ==> LinkExact(old(Contents()), Contents(), prepared, |prepared|)
    {
      hide LinkExact;
      hide Consistent, Unclaimed, LinkInvariant, Kept, LinkOk, LinksGrown, AllCurrent;
      hide KeysMatch, RowChecks, UniqueReconciliations, UniqueInbox, UniqueEvidence, ForeignKeys;
      ghost var t0 := Contents();
      LinkStarts(t0, prepared);
      NoLinkYet(t0, prepared);
      LinkExactStarts(t0, prepared);
      for n := 0 to |prepared|
        invariant Consistent(Contents()) && Unclaimed(Contents())
        invariant LinkInvariant(t0, Contents(), prepared, n)
        invariant LinkOk(t0, prepared, n) && LinksGrown(t0, Contents(), prepared, n)
        invariant LinkExact(t0, Contents(), prepared, n)
      {
        ghost var t := Contents();
        var p := prepared[n];
        ConsistentParts(t);
        NextIsCurrent(t0, t, prepared, n);
        LinkDecides(t0, t, prepared, n);
        if (p.existing.None? && p.inboxId in inbox)
            || exists e :: e in evidence && evidence[e].inboxId == Some(p.inboxId) {
          if LinkOk(t0, prepared, |prepared|) {
            LinkOkIsMonotone(t0, prepared, n + 1);
          }
          return false;
        }
        if p.existing.None? {
          inbox := inbox[p.inboxId := InboxFor(p.row, p.inboxId, recons[p.row.reconciliationId].providerId)];
        } else if p.existing.value.state == InboxPending {
          inbox := inbox[p.inboxId := CorrelatedInbox(inbox[p.inboxId], p.row.reconciliationId, p.row.createdAt)];
        }
        evidence := evidence[p.row.id := evidence[p.row.id].(inboxId := Some(p.inboxId))];
        assert inbox == Link(t, p).inbox;
        assert Contents() == Link(t, p);
        LinksGrow(t0, t, prepared, n);
        LinkKeepsConsistent(t, p);
        PreparedApart(t0, prepared);
        LinkAdvances(t0, t, prepared, n);
        LinkExactAdvances(t0, t, prepared, n);
      }
      ok := true;
    }

    /** _backfill_historical_evidence: scan, then link; a block changes nothing. */
    method BackfillEvidence(now: Instant, stableId: (string, string) -> string) returns (ok: bool)
      requires Consistent(Contents()) && Unclaimed(Contents())
      modifies this
      ensures !ok ==> Contents() == old(Contents())
      ensures ok <==> BackfillClear(old(Contents()), outbox, stableId)
      ensures ok ==> Consistent(Contents()) && Unclaimed(Contents()) && Kept(old(Contents()), Contents())
      ensures ok ==> evidence.Keys == old(evidence).Keys
      ensures ok ==> Outcome(old(Contents()), Contents(), now, stableId)
      ensures ok ==> BackfillColumns(old(Contents()), Contents(), now, stableId)
      ensures ok ==> forall e | e in old(evidence) && old(evidence)[e].inboxId.None? :: Backfilled(Contents(), e)
    {
      hide BackfillColumns;
      hide ScanExact, LinkExact, LinksGrown, ScanTrack, Outcome, Ambiguous;
      hide Consistent, Unclaimed, Kept, Scanned, ScanInvariant, LinkInvariant, Backfilled, ScanOk, LinkOk,
           PreparedTrack, ScanFine, ScanApart, LinkFineFor, LinkApartFor;
      hide AllCurrent, KeysMatch, RowChecks, UniqueReconciliations, UniqueInbox, UniqueEvidence, ForeignKeys;
      var t0 := Contents();
      var unlinked := set e | e in evidence && evidence[e].inboxId.None?;
      var rows := Enumerate(unlinked);
      ConsistentParts(t0);
      AnyScanOrder(t0, outbox, rows, stableId);
      var prepared;
      ok, prepared := ScanEvidence(rows, now, stableId);
      ghost var t1 := Contents();
      if ok {
        ScanFinishes(t0, t1, rows, prepared, now);
        ScanKeepsTables(t0, t1, now);
        PreparedApart(t1, prepared);
        LinkOkIff(t0, t1, rows, prepared, stableId);
        ok := LinkEvidence(prepared);
      }
      if ok {
        BackfillFinishes(t0, t1, Contents(), rows, prepared, now);
        OutcomeReached(t0, t1, Contents(), rows, prepared, now, stableId);
        OutcomeColumns(t0, Contents(), outbox, now, stableId);
      } else {
        Rollback(t0);
      }
    }

    /** First loop of the recovery: nothing is written, and any doubt blocks. */
    method MatchQuarantined(rows: seq<string>) returns (ok: bool, matched: seq<Match>)
      requires KeysMatch(Contents()) && UniqueReconciliations(Contents())
      ensures !ok ==> exists q :: q in rows && !HasMatch(Contents(), q)
      requires forall q | q in rows :: Recoverable(Contents(), q)
      ensures ok ==> |matched| == |rows|
      ensures ok ==> forall i | 0 <= i < |matched| :: matched[i].row.id == rows[i] && Exact(Contents(), matched[i])
    {
      matched := [];
      for n := 0 to |rows|
        invariant |matched| == n
        invariant forall i | 0 <= i < n :: matched[i].row.id == rows[i] && Exact(Contents(), matched[i])
      {
        assert Recoverable(Contents(), rows[n]);
        var q := inbox[rows[n]];
        var r :| r in recons && recons[r].providerId == q.providerId;
        if recons[r].state != Pending || recons[r].operational != Active {
          assert !HasMatch(Contents(), rows[n]);
          return false, matched;
        }
        var evidences := set e | e in evidence && Matches(evidence[e], q, recons[r]);
        var found: Option<Evidence> := None;
        if evidences != {} {
          var e :| e in evidences;
          if evidences != {e} || !Identical(evidence[e], q, recons[r]) {
            AmbiguousEvidence(Contents(), q, recons[r], evidences, e);
            return false, matched;
          }
          found := Some(evidence[e]);
          assert forall k | k in evidence && k != e :: k !in evidences;
        } else {
          assert forall k | k in evidence :: k !in evidences;
        }
        matched := matched + [Match(q, recons[r], found)];
      }
      ok := true;
    }

    /** _recover_exact_quarantined_inbox: correlate every parked row that has a reconciliation. */
    method RecoverQuarantined(now: Instant, stableId: (string, string) -> string) returns (ok: bool)
      requires Consistent(Contents()) && Unclaimed(Contents()) && OutboxKnown(Contents(), outbox)
      modifies this
      ensures !ok ==> Contents() == old(Contents())
      ensures ok <==> Clear(old(Contents()), outbox, stableId)
      ensures ok ==> Consistent(Contents()) && Unclaimed(Contents()) && Recovered(old(Contents()), Contents())
      ensures ok ==> Settlement(old(Contents()), Contents(), now, stableId)
      ensures ok ==> RecoveryColumns(old(Contents()), Contents(), now, stableId)
    {
      hide RecoveryColumns;
      hide Consistent, Unclaimed, RowChecks, ForeignKeys, UniqueInbox, UniqueEvidence;
      hide Settlement, WriteExact, ListsAll, Recoverable, NoDuplicates, Free, Differ;
      hide Ready, Recovered, RecoverInvariant, Correlatable, UniqueReconciliations, TerminalConflict, ScopeConflict,
           HasMatch, IdsFree, KeysMatch, Clear;
      var t0 := Contents();
      ConsistentParts(t0);
      if TerminalConflict(t0) || ScopeConflict(t0, outbox) {
        NotClear(t0, outbox, stableId);
        return false;
      }
      var rows := Enumerate(ParkedRows(t0));
      var matched;
      ok, matched := MatchQuarantined(rows);
      if !ok {
        NotClear(t0, outbox, stableId);
      } else {
        ClearMatches(t0, outbox, rows, matched, stableId);
        MatchesAreListed(t0, rows, matched);
        ok := CorrelateMatches(matched, now, stableId);
      }
      if ok {
        RecoverFinishes(t0, Contents(), rows, matched);
        SettlementReached(t0, Contents(), matched, now, stableId);
        SettlementColumns(t0, Contents(), outbox, now, stableId);
      } else {
        Rollback(t0);
      }
    }

    /** Inserts or links the evidence, correlates the inbox row, moves the due time up, records it. */
    method WriteMatch(m: Match, now: Instant, evidenceId: string, auditId: string)
      requires m.row.id in inbox && inbox[m.row.id] == m.row && m.recon.id in recons
      requires m.evidence.Some? ==>
        && m.evidence.value.id in evidence
        && evidence[m.evidence.value.id] == m.evidence.value
        && (m.evidence.value.inboxId.Some? ==> m.evidence.value.inboxId == Some(m.row.id))
      modifies this
      ensures Contents() == Correlate(old(Contents()), m, now, evidenceId, auditId)
    {
      match m.evidence {
        case None =>
          evidence := evidence[evidenceId := EvidenceOf(m, evidenceId)];
        case Some(x) =>
          if x.inboxId.None? {
            evidence := evidence[x.id := evidence[x.id].(inboxId := Some(m.row.id))];
          }
      }
      inbox := inbox[m.row.id := CorrelatedInbox(inbox[m.row.id], m.recon.id, m.recon.acceptedAt)];
      recons := recons[m.recon.id := DueNow(recons[m.recon.id], now)];
      audits := audits[auditId := AcceptanceAudit(auditId, m)];
      assert evidence == Correlate(old(Contents()), m, now, evidenceId, auditId).evidence;
    }

    /** Second loop of the recovery; a primary key that is taken stops it. */
    method CorrelateMatches(matched: seq<Match>, now: Instant, stableId: (string, string) -> string) returns (ok: bool)
      requires Consistent(Contents()) && Unclaimed(Contents())
      requires forall i, j | 0 <= i < j < |matched| :: matched[i].row.id != matched[j].row.id
      requires forall i | 0 <= i < |matched| :: Ready(Contents(), matched[i])
      modifies this
      ensures ok <==> IdsFree(old(Contents()), matched, |matched|, stableId)
      ensures ok ==> Consistent(Contents()) && Unclaimed(Contents())
      ensures ok ==> RecoverInvariant(old(Contents()), Contents(), matched, |matched|)
      ensures ok ==> WriteExact(old(Contents()), Contents(), matched, |matched|, now, stableId)
    {
      hide WriteExact;
      hide Consistent, Unclaimed, RecoverInvariant, Ready, Correlatable, Matches, Identical, IdsFree, KeysGrown,
           Correlate, KeysMatch;
      hide RowChecks, UniqueReconciliations, UniqueInbox, UniqueEvidence, ForeignKeys;
      ghost var t0 := Contents();
      RecoverStarts(t0, matched);
      NoKeyTaken(t0, matched, stableId);
      NothingWritten(t0, matched, now, stableId);
      ConsistentParts(t0);
      for n := 0 to |matched|
        invariant Consistent(Contents()) && Unclaimed(Contents())
        invariant RecoverInvariant(t0, Contents(), matched, n)
        invariant IdsFree(t0, matched, n, stableId) && KeysGrown(t0, Contents(), matched, n, stableId)
        invariant WriteExact(t0, Contents(), matched, n, now, stableId)
      {
        ghost var t := Contents();
        var m := matched[n];
        NextIsReady(t0, t, matched, n);
        ReadyRows(t, m);
        NextIdsFree(t0, t, matched, n, stableId);
        var evidenceId, auditId := stableId("metaevidence", m.row.id), stableId("audit", "0030:" + m.row.id);
        if (m.evidence.None? && evidenceId in evidence) || auditId in audits {
          if IdsFree(t0, matched, |matched|, stableId) {
            IdsFreeIsMonotone(t0, matched, n + 1, stableId);
          }
          return false;
        }
        ConsistentParts(t);
        KeysGrow(t0, t, matched, n, now, stableId);
        WriteExactAdvances(t0, t, matched, n, now, stableId);
        ReadyIsCorrelatable(t, m, evidenceId, auditId);
        WriteMatch(m, now, evidenceId, auditId);
        CorrelateKeepsConsistent(t, m, now, evidenceId, auditId);
        RecoverAdvances(t0, t, matched, n, now, evidenceId, auditId);
      }
      ok := true;
    }

    /**
     The two procedures in their order, in one transaction. When both finish, every
     evidence row that was unlinked is linked to an inbox row with its provider id, key and
     event that is correlated to its own reconciliation, or it is still unlinked and its
     reconciliation is in quarantine as ambiguous. No inbox row serves two evidence rows.
     They finish exactly when the tables at the start are clear for both in turn, and then
     leave the one outcome that these tables call for.
     */
    method RecoverHistoricalEvidence(now: Instant, stableId: (string, string) -> string) returns (ok: bool)
      requires Consistent(Contents()) && Unclaimed(Contents()) && OutboxKnown(Contents(), outbox)
      modifies this
      ensures !ok ==> Contents() == old(Contents())
      ensures ok <==> ClearForBoth(old(Contents()), outbox, now, stableId)
      ensures ok ==> BothOutcomes(old(Contents()), Contents(), now, stableId)
      ensures ok ==> BothColumns(old(Contents()), Contents(), now, stableId)
      ensures ok ==> forall e | e in evidence && e !in old(evidence) ::
        MadeFromStart(old(Contents()), Contents(), e)
      ensures ok ==> forall e | e in old(evidence) && old(evidence)[e].inboxId.None? ::
        && (exists q :: CorrelatedTo(Contents(), e, q)) != LeftAmbiguous(Contents(), e)
      ensures ok ==> UniqueEvidence(Contents())
      ensures ok ==> forall q :: !Recoverable(Contents(), q)
      ensures ok ==> Consistent(Contents()) && Kept(old(Contents()), Contents())
    {
      hide BackfillColumns, RecoveryColumns, BothColumns, MadeFromStart;
      hide Consistent, Unclaimed, Kept, Backfilled, Recovered, CorrelatedTo, LeftAmbiguous, UniqueEvidence, Recoverable,
           Clear, BackfillClear, Outcome, ClearForBoth, Settlement;
      var t0 := Contents();
      ok := BackfillEvidence(now, stableId);
      if !ok {
        NotClearForFirst(t0, outbox, now, stableId);
        return;
      }
      ghost var t1 := Contents();
      ClearAfterFirst(t0, t1, outbox, now, stableId);
      KeptKeepsOutbox(t0, t1, outbox);
      ok := RecoverQuarantined(now, stableId);
      if !ok {
        Rollback(t0);
        return;
      }
      BothFinish(t0, t1, Contents());
      NewEvidenceOfBoth(t0, t1, Contents(), now, stableId);
      assert Outcome(t0, t1, now, stableId) && Settlement(t1, Contents(), now, stableId);
    }
  }

  /**
   Nothing blocks the backfill, and nothing in the outcome it has blocks the recovery. The
   outcome is said by the tables of the start, and there is one at most.
   */
  ghost predicate ClearForBoth(t0: Tables, outbox: map<string, Outbox>, now: Instant,
        stableId: (string, string) -> string)
  {
    && BackfillClear(t0, outbox, stableId)
    && exists t :: Outcome(t0, t, now, stableId) && Clear(t, outbox, stableId)
  }

  lemma NotClearForFirst(t0: Tables, outbox: map<string, Outbox>, now: Instant, stableId: (string, string) -> string)
    requires !BackfillClear(t0, outbox, stableId)
    ensures !ClearForBoth(t0, outbox, now, stableId)
  {
    hide BackfillClear, Outcome, Clear;
  }

  lemma ClearAfterFirst(t0: Tables, t1: Tables, outbox: map<string, Outbox>, now: Instant,
        stableId: (string, string) -> string)
    requires Consistent(t0) && BackfillClear(t0, outbox, stableId) && Outcome(t0, t1, now, stableId)
    ensures ClearForBoth(t0, outbox, now, stableId) <==> Clear(t1, outbox, stableId)
  {
    hide Consistent, ForeignKeys, BackfillClear, Outcome, Clear;
    ConsistentParts(t0);
    if ClearForBoth(t0, outbox, now, stableId) {
      var t :| Outcome(t0, t, now, stableId) && Clear(t, outbox, stableId);
      OutcomeIsUnique(t0, t, t1, now, stableId);
    }
  }

  lemma FoundMisfit(t: Tables, e: string, q: Inbox)
    requires Keyed(t, e, q.id) && t.inbox[q.id] == q && !SameEvent(t.evidence[e], q)
    ensures Misfit(t, e, q.id)
  {
  }

  /** The outcome of the recovery behind the outcome of the backfill. */
  ghost predicate BothOutcomes(t0: Tables, t: Tables, now: Instant, stableId: (string, string) -> string) {
    exists middle :: Outcome(t0, middle, now, stableId) && Settlement(middle, t, now, stableId)
  }

  /** The tables of the start decide every table after both procedures. */
  lemma BothOutcomesAreUnique(t0: Tables, t: Tables, u: Tables, now: Instant, stableId: (string, string) -> string)
    requires ForeignKeys(t0) && BothOutcomes(t0, t, now, stableId) && BothOutcomes(t0, u, now, stableId)
    ensures t == u
  {
    hide ForeignKeys, Outcome, Settlement;
    var middle :| Outcome(t0, middle, now, stableId) && Settlement(middle, t, now, stableId);
    var other :| Outcome(t0, other, now, stableId) && Settlement(other, u, now, stableId);
    OutcomeIsUnique(t0, middle, other, now, stableId);
    SettlementIsUnique(middle, t, u, now, stableId);
  }

  lemma BothFinish(t0: Tables, t1: Tables, t: Tables)
    requires Kept(t0, t1) && Recovered(t1, t) && Consistent(t)
    requires forall e | e in t0.evidence && t0.evidence[e].inboxId.None? :: Backfilled(t1, e)
    ensures Kept(t0, t) && UniqueEvidence(t)
    ensures forall e | e in t0.evidence && t0.evidence[e].inboxId.None? ::
      (exists q :: CorrelatedTo(t, e, q)) != LeftAmbiguous(t, e)
    ensures forall q :: !Recoverable(t, q)
  {
    hide Consistent, RowChecks, ForeignKeys, KeysMatch, UniqueReconciliations, UniqueInbox, UniqueEvidence;
    hide Recovered, Backfilled, Recoverable, Kept;
    ConsistentParts(t);
    NothingLeftToRecover(t1, t);
    RecoveredKeeps(t1, t);
    KeptIsTransitive(t0, t1, t);
    EvidenceStays(t0, t1);
    forall e | e in t0.evidence && t0.evidence[e].inboxId.None?
      ensures (exists q :: CorrelatedTo(t, e, q)) != LeftAmbiguous(t, e)
    {
      SettledByBoth(t1, t, e);
    }
  }

  lemma EvidenceStays(t0: Tables, t: Tables)
    requires Kept(t0, t)
    ensures t0.evidence.Keys <= t.evidence.Keys
  {
  }

  lemma RecoveredKeeps(t0: Tables, t: Tables)
    requires Recovered(t0, t)
    ensures Kept(t0, t)
  {
  }

  lemma NothingLeftToRecover(t0: Tables, t: Tables)
    requires Recovered(t0, t)
    ensures forall q :: !Recoverable(t, q)
  {
    forall q
      ensures !Recoverable(t, q)
    {
      if Recoverable(t0, q) {
        var r :| r in t0.recons && t0.recons[r].providerId == t0.inbox[q].providerId;
        assert Correlated(t, q, r);
      } else if q in t.inbox {
        assert t.inbox[q] == t0.inbox[q];
        assert forall r | r in t.recons :: t.recons[r].providerId == t0.recons[r].providerId;
      }
    }
  }

  /** What the recovery correlates, no later statement undoes. */
  lemma RecoveredStaysLinked(run: seq<Tables>, q: string, r: string, j: nat)
    requires MetaLifecycle.IsRun(run) && j < |run|
    requires Correlated(run[0], q, r)
    ensures q in run[j].inbox && run[j].inbox[q] == run[0].inbox[q]
    ensures exists e :: MetaLifecycle.Linked(run[j], q, e)
  {
    hide Consistent;
    var e :| MetaLifecycle.Linked(run[0], q, e);
    MetaLifecycle.LinkSurvivesRun(run, q, e, 0, j);
  }

  lemma KeptKeepsOutbox(t0: Tables, t: Tables, outbox: map<string, Outbox>)
    requires Kept(t0, t) && OutboxKnown(t0, outbox)
    ensures OutboxKnown(t, outbox)
  {
  }

  /** How an evidence row that started unlinked ends. */
  ghost predicate Settled(t: Tables, e: string) {
    (exists q :: CorrelatedTo(t, e, q)) || LeftAmbiguous(t, e)
  }

  lemma SettledByBoth(t1: Tables, t: Tables, e: string)
    requires Backfilled(t1, e) && Recovered(t1, t)
    ensures Settled(t, e)
  {
    if LeftAmbiguous(t1, e) {
      assert LeftAmbiguous(t, e);
    } else {
      var q :| CorrelatedTo(t1, e, q) || ParkedAt(t1, e, q);
      var r := t1.evidence[e].reconciliationId;
      if ParkedAt(t1, e, q) {
        assert t1.recons[r].providerId == t1.inbox[q].providerId;
        assert Recoverable(t1, q);
        assert Correlated(t, q, r);
      }
      assert CorrelatedTo(t, e, q);
    }
  }
}
