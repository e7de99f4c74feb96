/**
 What the evidence backfill of migration 0030 leaves when it finishes, row by row, said by
 the tables it starts from: the unlinked evidence rows, the inbox rows found or made for
 them, the reconciliations set aside, and the audit rows about these.
 */
module MetaOutcome {
  import opened Common
  import opened MetaTables
  import opened MetaBackfill

  // ----- what the backfill leaves, exactly -----

  /** An inbox row that is set aside for an unlinked evidence row. */
  ghost predicate Misfit(t: Tables, e: string, q: string) {
    Keyed(t, e, q) && !SameEvent(t.evidence[e], t.inbox[q])
  }

  /** An unlinked evidence row for which an inbox row has to be made. */
  ghost predicate Needs(t: Tables, e: string) {
    Unlinked(t, e) && t.evidence[e].reconciliationId in t.recons && NoInbox(t, e)
  }

  function FittedInbox(e: Evidence, q: Inbox): Inbox {
    if q.state == InboxPending then CorrelatedInbox(q, e.reconciliationId, e.createdAt) else q
  }

  /**
   The tables after a backfill that finishes, row by row, said by the tables before it: the
   unlinked evidence rows, the inbox rows found or made for them, the reconciliations set
   aside, and the audit rows about these. Everything else is as it was.
   */
  ghost predicate Outcome(t0: Tables, t: Tables, now: Instant, stableId: (string, string) -> string) {
    && OutcomeEvidence(t0, t, stableId)
    && OutcomeInbox(t0, t, now, stableId)
    && OutcomeReconciliations(t0, t, now)
    && OutcomeAudits(t0, t, stableId)
  }

  ghost predicate OutcomeEvidence(t0: Tables, t: Tables, stableId: (string, string) -> string) {
    && t.evidence.Keys == t0.evidence.Keys
    && (forall e | e in t0.evidence && (!Unlinked(t0, e) || Ambiguous(t0, e)) :: t.evidence[e] == t0.evidence[e])
    && (forall e | Needs(t0, e) :: t.evidence[e] == t0.evidence[e].(inboxId := Some(InboxIdFor(e, stableId))))
    && forall e, q | Unlinked(t0, e) && Keyed(t0, e, q) && !Ambiguous(t0, e) ::
         t.evidence[e] == t0.evidence[e].(inboxId := Some(q))
  }

  ghost predicate OutcomeInbox(t0: Tables, t: Tables, now: Instant, stableId: (string, string) -> string) {
    && (forall q :: q in t.inbox <==> q in t0.inbox || IsMade(t0, q, stableId))
    && (forall e | Needs(t0, e) ::
          && InboxIdFor(e, stableId) in t.inbox
          && t.inbox[InboxIdFor(e, stableId)]
             == InboxFor(t0.evidence[e], InboxIdFor(e, stableId), ProviderOf(t0, t0.evidence[e])))
    && (forall e, q | Unlinked(t0, e) && Keyed(t0, e, q) ::
          t.inbox[q] ==
            if Misfit(t0, e, q) then AmbiguousInbox(t0.inbox[q], now) else FittedInbox(t0.evidence[e], t0.inbox[q]))
    && forall q | q in t0.inbox && !IsFoundBySome(t0, q) :: t.inbox[q] == t0.inbox[q]
  }

  ghost predicate IsMade(t0: Tables, q: string, stableId: (string, string) -> string) {
    exists e :: Needs(t0, e) && InboxIdFor(e, stableId) == q
  }

  ghost predicate IsFoundBySome(t0: Tables, q: string) {
    exists e :: Unlinked(t0, e) && Keyed(t0, e, q)
  }

  ghost predicate OutcomeReconciliations(t0: Tables, t: Tables, now: Instant) {
    && t.recons.Keys == t0.recons.Keys
    && forall r | r in t0.recons ::
         t.recons[r] == if IsSetAside(t0, r) then AmbiguousReconciliation(t0.recons[r], now) else t0.recons[r]
  }

  ghost predicate IsSetAside(t0: Tables, r: string) {
    exists e :: e in t0.evidence && Unlinked(t0, e) && Ambiguous(t0, e) && t0.evidence[e].reconciliationId == r
  }

  ghost predicate OutcomeAudits(t0: Tables, t: Tables, stableId: (string, string) -> string) {
    && (forall a :: a in t.audits <==> a in t0.audits || IsAudited(t0, a, stableId))
    && (forall a | a in t0.audits :: t.audits[a] == t0.audits[a])
    && forall e, q | Unlinked(t0, e) && Misfit(t0, e, q) :: Audits(t0, t, e, q, stableId)
  }

  ghost predicate IsAudited(t0: Tables, a: string, stableId: (string, string) -> string) {
    exists e :: Unlinked(t0, e) && Ambiguous(t0, e) && AmbiguityIdFor(e, stableId) == a
  }

  /** There is one such outcome at most: the tables before the backfill decide the tables after it. */
  lemma OutcomeIsUnique(t0: Tables, t: Tables, u: Tables, now: Instant, stableId: (string, string) -> string)
    requires ForeignKeys(t0) && Outcome(t0, t, now, stableId) && Outcome(t0, u, now, stableId)
    ensures t == u
  {
    hide OutcomeEvidence, OutcomeInbox, OutcomeReconciliations, OutcomeAudits;
    SameEvidence(t0, t, u, stableId);
    SameInbox(t0, t, u, now, stableId);
    SameReconciliations(t0, t, u, now);
    SameAudits(t0, t, u, stableId);
  }

  lemma SameEvidence(t0: Tables, t: Tables, u: Tables, stableId: (string, string) -> string)
    requires ForeignKeys(t0) && OutcomeEvidence(t0, t, stableId) && OutcomeEvidence(t0, u, stableId)
    ensures t.evidence == u.evidence
  {
    hide Keyed, Ambiguous, InboxIdFor;
    forall e | e in t0.evidence
      ensures t.evidence[e] == u.evidence[e]
    {
      if Unlinked(t0, e) && !Ambiguous(t0, e) {
        if q :| Keyed(t0, e, q) {
          assert t.evidence[e] == t0.evidence[e].(inboxId := Some(q));
        } else {
          assert Needs(t0, e);
        }
      }
    }
  }

  lemma SameInbox(t0: Tables, t: Tables, u: Tables, now: Instant, stableId: (string, string) -> string)
    requires OutcomeInbox(t0, t, now, stableId) && OutcomeInbox(t0, u, now, stableId)
    ensures t.inbox == u.inbox
  {
    hide Keyed, Misfit, InboxIdFor, Needs, Unlinked;
    forall q | q in t.inbox
      ensures q in u.inbox && t.inbox[q] == u.inbox[q]
    {
      if IsMade(t0, q, stableId) {
        var e :| Needs(t0, e) && InboxIdFor(e, stableId) == q;
      } else if IsFoundBySome(t0, q) {
        var e :| Unlinked(t0, e) && Keyed(t0, e, q);
      }
    }
  }

  lemma SameReconciliations(t0: Tables, t: Tables, u: Tables, now: Instant)
    requires OutcomeReconciliations(t0, t, now) && OutcomeReconciliations(t0, u, now)
    ensures t.recons == u.recons
  {
    hide IsSetAside;
  }

  lemma SameAudits(t0: Tables, t: Tables, u: Tables, stableId: (string, string) -> string)
    requires OutcomeAudits(t0, t, stableId) && OutcomeAudits(t0, u, stableId)
    ensures t.audits == u.audits
  {
    hide Unlinked, Keyed, SameEvent, AmbiguityIdFor;
    forall a | a in t.audits
      ensures a in u.audits && t.audits[a] == u.audits[a]
    {
      if a !in t0.audits {
        var e :| Unlinked(t0, e) && Ambiguous(t0, e) && AmbiguityIdFor(e, stableId) == a;
        var q := MisfitOf(t0, e);
        assert Audits(t0, t, e, q, stableId) && Audits(t0, u, e, q, stableId);
      }
    }
    assert t.audits.Keys == u.audits.Keys;
  }

  lemma MisfitOf(t: Tables, e: string) returns (q: string)
    requires Ambiguous(t, e)
    ensures Misfit(t, e, q)
  {
    q :| Keyed(t, e, q) && !SameEvent(t.evidence[e], t.inbox[q]);
  }

  /** The tables after the scan of the first `n` rows, exactly. */
  ghost predicate ScanExact(t0: Tables, t: Tables, rows: seq<string>, n: nat, now: Instant,
        stableId: (string, string) -> string)
    requires n <= |rows|
  {
    && ExactReconciliations(t0, t, rows, n, now)
    && ExactInbox(t0, t, rows, n, now)
    && ExactAudits(t0, t, rows, n, stableId)
  }

  ghost predicate ExactReconciliations(t0: Tables, t: Tables, rows: seq<string>, n: nat, now: Instant)
    requires n <= |rows|
  {
    && t.recons.Keys == t0.recons.Keys
    && forall r | r in t0.recons ::
         t.recons[r] ==
           if AmbiguousBefore(t0, rows, n, r) then AmbiguousReconciliation(t0.recons[r], now) else t0.recons[r]
  }

  ghost predicate ExactInbox(t0: Tables, t: Tables, rows: seq<string>, n: nat, now: Instant)
    requires n <= |rows|
  {
    && t.inbox.Keys == t0.inbox.Keys
    && forall q | q in t0.inbox ::
         t.inbox[q] == if MisfitBefore(t0, rows, n, q) then AmbiguousInbox(t0.inbox[q], now) else t0.inbox[q]
  }

  ghost predicate ExactAudits(t0: Tables, t: Tables, rows: seq<string>, n: nat, stableId: (string, string) -> string)
    requires n <= |rows|
  {
    && (forall a | a in t0.audits :: a in t.audits && t.audits[a] == t0.audits[a])
    && forall i, q | 0 <= i < n && Misfit(t0, rows[i], q) :: Audits(t0, t, rows[i], q, stableId)
  }

  ghost predicate Audits(t0: Tables, t: Tables, e: string, q: string, stableId: (string, string) -> string) {
    && AmbiguityIdFor(e, stableId) in t.audits && e in t0.evidence && q in t0.inbox
    && t.audits[AmbiguityIdFor(e, stableId)] == AmbiguityAudit(AmbiguityIdFor(e, stableId), t0.evidence[e], t0.inbox[q])
  }

  ghost predicate MisfitBefore(t0: Tables, rows: seq<string>, n: nat, q: string)
    requires n <= |rows|
  {
    exists i :: 0 <= i < n && Misfit(t0, rows[i], q)
  }

  lemma ExactStarts(t: Tables, rows: seq<string>, now: Instant, stableId: (string, string) -> string)
    ensures ScanExact(t, t, rows, 0, now, stableId)
  {
  }

  lemma NoMisfit(t0: Tables, rows: seq<string>, n: nat)
    requires n < |rows| && !Ambiguous(t0, rows[n])
    ensures forall q :: !Misfit(t0, rows[n], q)
    ensures forall q :: MisfitBefore(t0, rows, n + 1, q) <==> MisfitBefore(t0, rows, n, q)
  {
    hide Keyed, SameEvent;
    forall q
      ensures MisfitBefore(t0, rows, n + 1, q) <==> MisfitBefore(t0, rows, n, q)
    {
      if MisfitBefore(t0, rows, n, q) {
        var i :| 0 <= i < n && Misfit(t0, rows[i], q);
        assert 0 <= i < n + 1 && Misfit(t0, rows[i], q);
      }
    }
  }

  lemma ExactPrepared(t0: Tables, t: Tables, rows: seq<string>, n: nat, now: Instant,
        stableId: (string, string) -> string)
    requires n < |rows| && ScanExact(t0, t, rows, n, now, stableId) && !Ambiguous(t0, rows[n])
    ensures ScanExact(t0, t, rows, n + 1, now, stableId)
  {
    hide Ambiguous, Misfit, MisfitBefore, AmbiguousBefore, AuditedBefore, Audits;
    SameAmbiguous(t0, rows, n, stableId);
    NoMisfit(t0, rows, n);
  }

  /** The one inbox row that does not fit the next evidence row. */
  lemma OneMisfit(t0: Tables, rows: seq<string>, n: nat, q: string)
    requires UniqueInbox(t0) && n < |rows| && Misfit(t0, rows[n], q)
    ensures forall x :: Misfit(t0, rows[n], x) <==> x == q
    ensures forall x :: MisfitBefore(t0, rows, n + 1, x) <==> MisfitBefore(t0, rows, n, x) || x == q
  {
    forall x | Misfit(t0, rows[n], x)
      ensures x == q
    {
    }
    forall x
      ensures MisfitBefore(t0, rows, n + 1, x) <==> MisfitBefore(t0, rows, n, x) || x == q
    {
      MisfitBeforeMore(t0, rows, n, x);
    }
  }

  lemma MisfitBeforeMore(t0: Tables, rows: seq<string>, n: nat, x: string)
    requires n < |rows|
    ensures MisfitBefore(t0, rows, n + 1, x) <==> MisfitBefore(t0, rows, n, x) || Misfit(t0, rows[n], x)
  {
    hide Misfit;
    if MisfitBefore(t0, rows, n, x) {
      var i :| 0 <= i < n && Misfit(t0, rows[i], x);
      assert 0 <= i < n + 1 && Misfit(t0, rows[i], x);
    }
    if Misfit(t0, rows[n], x) {
      assert 0 <= n < n + 1;
    }
  }

  lemma ExactSetAside(t0: Tables, t: Tables, rows: seq<string>, n: nat, q: Inbox, now: Instant,
        stableId: (string, string) -> string)
    requires UniqueInbox(t0) && n < |rows| && ScanTrack(t0, t, rows, n, stableId)
    requires ScanExact(t0, t, rows, n, now, stableId)
    requires Misfit(t0, rows[n], q.id) && t0.inbox[q.id] == q
    requires CanSetAside(t, t.evidence[rows[n]], q, AmbiguityIdFor(rows[n], stableId))
    ensures ScanExact(t0, SetAside(t, t.evidence[rows[n]], q, now, AmbiguityIdFor(rows[n], stableId)),
      rows, n + 1, now, stableId)
  {
    hide Misfit, MisfitBefore, AmbiguousBefore, AuditedBefore, AmbiguityIdFor, UniqueInbox, ScanExact;
    var u := SetAside(t, t.evidence[rows[n]], q, now, AmbiguityIdFor(rows[n], stableId));
    MisfitIsAmbiguous(t0, rows[n], q.id);
    MoreAmbiguous(t0, rows, n, stableId);
    OneMisfit(t0, rows, n, q.id);
    AsideReconciliations(t0, t, rows, n, q, now, stableId);
    AsideInbox(t0, t, rows, n, q, now, stableId);
    AsideAudits(t0, t, rows, n, q, now, stableId);
    assert ScanExact(t0, u, rows, n + 1, now, stableId) by {
      ExactParts(t0, u, rows, n + 1, now, stableId);
    }
  }

  lemma ExactParts(t0: Tables, t: Tables, rows: seq<string>, n: nat, now: Instant, stableId: (string, string) -> string)
    requires n <= |rows|
    ensures ScanExact(t0, t, rows, n, now, stableId) <==>
      && ExactReconciliations(t0, t, rows, n, now) && ExactInbox(t0, t, rows, n, now)
      && ExactAudits(t0, t, rows, n, stableId)
  {
    hide ExactReconciliations, ExactInbox, ExactAudits;
  }

  lemma AsideReconciliations(t0: Tables, t: Tables, rows: seq<string>, n: nat, q: Inbox, now: Instant,
        stableId: (string, string) -> string)
    requires n < |rows| && ScanTrack(t0, t, rows, n, stableId) && ScanExact(t0, t, rows, n, now, stableId)
    requires Ambiguous(t0, rows[n]) && CanSetAside(t, t.evidence[rows[n]], q, AmbiguityIdFor(rows[n], stableId))
    ensures ExactReconciliations(t0, SetAside(t, t.evidence[rows[n]], q, now, AmbiguityIdFor(rows[n], stableId)),
      rows, n + 1, now)
  {
    hide ExactInbox, ExactAudits, AmbiguousBefore, AuditedBefore, Ambiguous, AmbiguityIdFor, Keyed;
    MoreAmbiguous(t0, rows, n, stableId);
    assert !AmbiguousBefore(t0, rows, n, t0.evidence[rows[n]].reconciliationId);
  }

  lemma AsideInbox(t0: Tables, t: Tables, rows: seq<string>, n: nat, q: Inbox, now: Instant,
        stableId: (string, string) -> string)
    requires UniqueInbox(t0) && n < |rows| && ScanTrack(t0, t, rows, n, stableId)
    requires ScanExact(t0, t, rows, n, now, stableId)
    requires Misfit(t0, rows[n], q.id) && t0.inbox[q.id] == q && t.evidence[rows[n]].reconciliationId in t.recons
    ensures ExactInbox(t0, SetAside(t, t.evidence[rows[n]], q, now, AmbiguityIdFor(rows[n], stableId)),
      rows, n + 1, now)
  {
    hide ExactReconciliations, ExactAudits, AmbiguousBefore, AuditedBefore, Ambiguous, AmbiguityIdFor, UniqueInbox,
         Misfit, MisfitBefore;
    OneMisfit(t0, rows, n, q.id);
    MisfitIsAmbiguous(t0, rows[n], q.id);
  }

  lemma AsideAudits(t0: Tables, t: Tables, rows: seq<string>, n: nat, q: Inbox, now: Instant,
        stableId: (string, string) -> string)
    requires UniqueInbox(t0) && n < |rows| && ScanTrack(t0, t, rows, n, stableId)
    requires ScanExact(t0, t, rows, n, now, stableId)
    requires Misfit(t0, rows[n], q.id) && t0.inbox[q.id] == q && t.evidence[rows[n]].reconciliationId in t.recons
    requires AmbiguityIdFor(rows[n], stableId) !in t.audits
    ensures ExactAudits(t0, SetAside(t, t.evidence[rows[n]], q, now, AmbiguityIdFor(rows[n], stableId)),
      rows, n + 1, stableId)
  {
    hide ExactReconciliations, ExactInbox, AmbiguousBefore, AuditedBefore, Ambiguous, AmbiguityIdFor, UniqueInbox,
         Misfit, MisfitBefore;
    var u := SetAside(t, t.evidence[rows[n]], q, now, AmbiguityIdFor(rows[n], stableId));
    OneMisfit(t0, rows, n, q.id);
    MisfitIsAmbiguous(t0, rows[n], q.id);
    forall i, x | 0 <= i < n + 1 && Misfit(t0, rows[i], x)
      ensures Audits(t0, u, rows[i], x, stableId)
    {
      if i < n {
        assert Audits(t0, t, rows[i], x, stableId);
      } else {
        assert x == q.id;
      }
    }
  }

  lemma MisfitIsAmbiguous(t: Tables, e: string, q: string)
    requires Misfit(t, e, q)
    ensures Ambiguous(t, e) && q in t.inbox && e in t.evidence
  {
  }

  /** The tables after the first `n` links, exactly. */
  ghost predicate LinkExact(t1: Tables, t: Tables, prepared: seq<Prepared>, n: nat)
    requires n <= |prepared|
  {
    && t.recons == t1.recons && t.audits == t1.audits
    && LinkedRows(t1, t, prepared, n)
    && LinkedInboxes(t1, t, prepared, n)
  }

  ghost predicate LinkedRows(t1: Tables, t: Tables, prepared: seq<Prepared>, n: nat)
    requires n <= |prepared|
  {
    && t.evidence.Keys == t1.evidence.Keys
    && (forall i | 0 <= i < n ::
          && prepared[i].row.id in t.evidence
          && t.evidence[prepared[i].row.id] == prepared[i].row.(inboxId := Some(prepared[i].inboxId)))
    && forall e | e in t1.evidence && !RowBefore(prepared, n, e) :: t.evidence[e] == t1.evidence[e]
  }

  ghost predicate LinkedInboxes(t1: Tables, t: Tables, prepared: seq<Prepared>, n: nat)
    requires n <= |prepared|
  {
    && (forall i | 0 <= i < n ::
          && prepared[i].row.reconciliationId in t1.recons && prepared[i].inboxId in t.inbox
          && t.inbox[prepared[i].inboxId] == LinkedInbox(t1, prepared[i]))
    && forall q | q in t1.inbox && !InboxBefore(prepared, n, q) :: q in t.inbox && t.inbox[q] == t1.inbox[q]
  }

  ghost predicate RowBefore(prepared: seq<Prepared>, n: nat, e: string)
    requires n <= |prepared|
  {
    exists i :: 0 <= i < n && prepared[i].row.id == e
  }

  ghost predicate InboxBefore(prepared: seq<Prepared>, n: nat, q: string)
    requires n <= |prepared|
  {
    exists i :: 0 <= i < n && prepared[i].inboxId == q
  }

  lemma LinkExactStarts(t: Tables, prepared: seq<Prepared>)
    ensures LinkExact(t, t, prepared, 0)
  {
  }

  lemma BeforeMore(prepared: seq<Prepared>, n: nat)
    requires n < |prepared|
    ensures forall e :: RowBefore(prepared, n + 1, e) <==> RowBefore(prepared, n, e) || e == prepared[n].row.id
    ensures forall q :: InboxBefore(prepared, n + 1, q) <==> InboxBefore(prepared, n, q) || q == prepared[n].inboxId
  {
    forall e
      ensures RowBefore(prepared, n + 1, e) <==> RowBefore(prepared, n, e) || e == prepared[n].row.id
    {
      if RowBefore(prepared, n, e) {
        var i :| 0 <= i < n && prepared[i].row.id == e;
        assert 0 <= i < n + 1 && prepared[i].row.id == e;
      }
      assert 0 <= n < n + 1;
    }
    forall q
      ensures InboxBefore(prepared, n + 1, q) <==> InboxBefore(prepared, n, q) || q == prepared[n].inboxId
    {
      if InboxBefore(prepared, n, q) {
        var i :| 0 <= i < n && prepared[i].inboxId == q;
        assert 0 <= i < n + 1 && prepared[i].inboxId == q;
      }
      assert 0 <= n < n + 1;
    }
  }

  lemma LinkExactAdvances(t1: Tables, t: Tables, prepared: seq<Prepared>, n: nat)
    requires n < |prepared| && LinkExact(t1, t, prepared, n) && Linkable(t, prepared[n])
    requires prepared[n].row.reconciliationId in t.recons
    requires forall i, j | 0 <= i < j < |prepared| :: prepared[i].row.id != prepared[j].row.id
    ensures LinkExact(t1, Link(t, prepared[n]), prepared, n + 1)
  {
    hide LinkedRows, LinkedInboxes, Linkable;
    MoreLinkedRows(t1, t, prepared, n);
    MoreLinkedInboxes(t1, t, prepared, n);
  }

  lemma MoreLinkedRows(t1: Tables, t: Tables, prepared: seq<Prepared>, n: nat)
    requires n < |prepared| && LinkedRows(t1, t, prepared, n) && Linkable(t, prepared[n])
    requires prepared[n].row.reconciliationId in t.recons
    requires forall i, j | 0 <= i < j < |prepared| :: prepared[i].row.id != prepared[j].row.id
    ensures LinkedRows(t1, Link(t, prepared[n]), prepared, n + 1)
  {
    hide RowBefore, InboxBefore, HasKey, SameEvent, LinkedInbox;
    BeforeMore(prepared, n);
  }

  lemma MoreLinkedInboxes(t1: Tables, t: Tables, prepared: seq<Prepared>, n: nat)
    requires n < |prepared| && LinkedRows(t1, t, prepared, n) && LinkedInboxes(t1, t, prepared, n)
    requires t.recons == t1.recons && Linkable(t, prepared[n]) && prepared[n].row.reconciliationId in t.recons
    ensures LinkedInboxes(t1, Link(t, prepared[n]), prepared, n + 1)
  {
    hide RowBefore, InboxBefore, HasKey, SameEvent;
    BeforeMore(prepared, n);
    var p := prepared[n];
    forall i | 0 <= i < n
      ensures prepared[i].inboxId != p.inboxId
    {
      assert t.evidence[prepared[i].row.id].inboxId == Some(prepared[i].inboxId);
    }
    var u := Link(t, p);
    assert LinkedInbox(t, p) == LinkedInbox(t1, p);
    forall i | 0 <= i < n + 1
      ensures prepared[i].row.reconciliationId in t1.recons && prepared[i].inboxId in u.inbox
      ensures u.inbox[prepared[i].inboxId] == LinkedInbox(t1, prepared[i])
    {
      if i < n {
        assert prepared[i].inboxId != p.inboxId;
        assert u.inbox[prepared[i].inboxId] == t.inbox[prepared[i].inboxId];
      }
    }
    forall q | q in t1.inbox && !InboxBefore(prepared, n + 1, q)
      ensures q in u.inbox && u.inbox[q] == t1.inbox[q]
    {
      assert !InboxBefore(prepared, n, q) && q != p.inboxId;
      assert q in t.inbox && t.inbox[q] == t1.inbox[q];
    }
  }

  /** What was prepared for an evidence row holds the row and the inbox row of the start. */
  ghost predicate PreparedExactly(t0: Tables, p: Prepared) {
    && p.row.id in t0.evidence && p.row == t0.evidence[p.row.id]
    && match p.existing
       case None => p.inboxId !in t0.inbox
       case Some(x) => p.inboxId in t0.inbox && x == t0.inbox[p.inboxId]
  }

  lemma PreparedIsExact(t0: Tables, t1: Tables, rows: seq<string>, now: Instant, prepared: seq<Prepared>, i: nat,
      stableId: (string, string) -> string)
    requires UniqueReconciliations(t0) && UniqueEvidence(t0) && ForeignKeys(t0)
    requires t1.evidence == t0.evidence && ScanExact(t0, t1, rows, |rows|, now, stableId)
    requires AllCurrent(t1, prepared) && i < |prepared| && PreparedFor(t0, prepared[i], stableId)
    requires LinkFine(t1, prepared[i])
    ensures PreparedExactly(t0, prepared[i])
  {
    hide SameEvent, UniqueReconciliations, UniqueEvidence, ForeignKeys, AmbiguousBefore, AmbiguityIdFor;
    var p := prepared[i];
    assert Current(t1, p);
    if p.existing.Some? && MisfitBefore(t0, rows, |rows|, p.inboxId) {
      var k :| 0 <= k < |rows| && Misfit(t0, rows[k], p.inboxId);
      assert rows[k] != p.row.id;
      KeysTellEvidenceApart(t0, rows[k], p.row.id);
    }
  }

  /** Both loops leave exactly the outcome. */
  lemma OutcomeReached(t0: Tables, t1: Tables, t: Tables, rows: seq<string>, prepared: seq<Prepared>, now: Instant,
      stableId: (string, string) -> string)
    requires Consistent(t0) && t1.evidence == t0.evidence && forall e :: e in rows <==> Unlinked(t0, e)
    requires ScanExact(t0, t1, rows, |rows|, now, stableId) && ScanTrack(t0, t1, rows, |rows|, stableId)
    requires PreparedTrack(t0, rows, |rows|, prepared, stableId) && AllCurrent(t1, prepared)
    requires LinkExact(t1, t, prepared, |prepared|) && LinksGrown(t1, t, prepared, |prepared|)
    requires LinkOk(t1, prepared, |prepared|)
    ensures Outcome(t0, t, now, stableId)
  {
    hide Consistent, KeysMatch, RowChecks, UniqueInbox, UniqueReconciliations, UniqueEvidence, ForeignKeys;
    hide ScanExact, ScanTrack, AllCurrent, LinkExact, LinkedRows, LinkedInboxes, LinksGrown, LinkFine, LinkApart,
         PreparedFor, ExactReconciliations, ExactInbox, ExactAudits, Prepares, Ambiguous, Unlinked;
    hide OutcomeEvidence, OutcomeInbox, OutcomeReconciliations, OutcomeAudits;
    ConsistentParts(t0);
    ExactParts(t0, t1, rows, |rows|, now, stableId);
    LinkExactParts(t1, t, prepared);
    forall i: nat | i < |prepared|
      ensures PreparedFor(t0, prepared[i], stableId) && PreparedExactly(t0, prepared[i])
      ensures Unlinked(t0, prepared[i].row.id)
    {
      assert rows[..|rows|] == rows && LinkFine(t1, prepared[i]);
      PreparedIsExact(t0, t1, rows, now, prepared, i, stableId);
    }
    forall e | Unlinked(t0, e) && !Ambiguous(t0, e)
      ensures Prepares(prepared, e)
    {
      var k :| 0 <= k < |rows| && rows[k] == e;
    }
    EvidenceReached(t0, t1, t, prepared, stableId);
    InboxReached(t0, t1, t, rows, prepared, now, stableId);
    ReconciliationsReached(t0, t1, t, rows, now);
    AuditsReached(t0, t1, t, rows, stableId);
  }

  lemma LinkExactParts(t1: Tables, t: Tables, prepared: seq<Prepared>)
    requires LinkExact(t1, t, prepared, |prepared|)
    ensures LinkedRows(t1, t, prepared, |prepared|) && LinkedInboxes(t1, t, prepared, |prepared|)
    ensures t.recons == t1.recons && t.audits == t1.audits
  {
    hide LinkedRows, LinkedInboxes;
  }

  /** Exactly the unlinked evidence rows that fit were prepared, from the rows of the start. */
  ghost predicate PreparedAll(t0: Tables, prepared: seq<Prepared>, stableId: (string, string) -> string) {
    && (forall i: nat | i < |prepared| ::
          PreparedFor(t0, prepared[i], stableId) && PreparedExactly(t0, prepared[i])
            && Unlinked(t0, prepared[i].row.id))
    && forall e | Unlinked(t0, e) && !Ambiguous(t0, e) :: Prepares(prepared, e)
  }

  lemma EvidenceReached(t0: Tables, t1: Tables, t: Tables, prepared: seq<Prepared>,
        stableId: (string, string) -> string)
    requires PreparedAll(t0, prepared, stableId) && t1.evidence == t0.evidence && UniqueInbox(t0)
    requires LinkedRows(t1, t, prepared, |prepared|)
    ensures OutcomeEvidence(t0, t, stableId)
  {
    hide InboxIdFor, SameEvent, Ambiguous;
    forall e | e in t0.evidence && (!Unlinked(t0, e) || Ambiguous(t0, e))
      ensures t.evidence[e] == t0.evidence[e]
    {
      assert !RowBefore(prepared, |prepared|, e);
    }
    forall e | Unlinked(t0, e) && !Ambiguous(t0, e)
      ensures Needs(t0, e) ==> t.evidence[e] == t0.evidence[e].(inboxId := Some(InboxIdFor(e, stableId)))
      ensures forall q | Keyed(t0, e, q) :: t.evidence[e] == t0.evidence[e].(inboxId := Some(q))
    {
      var i: nat :| i < |prepared| && prepared[i].row.id == e;
      assert PreparedFor(t0, prepared[i], stableId);
    }
    forall e | Needs(t0, e)
      ensures !Ambiguous(t0, e)
    {
      NeedsNoSetAside(t0, e);
    }
  }

  lemma NeedsNoSetAside(t0: Tables, e: string)
    requires Needs(t0, e)
    ensures !Ambiguous(t0, e)
  {
  }

  lemma InboxReached(t0: Tables, t1: Tables, t: Tables, rows: seq<string>, prepared: seq<Prepared>, now: Instant,
      stableId: (string, string) -> string)
    requires UniqueInbox(t0) && UniqueReconciliations(t0) && UniqueEvidence(t0) && ForeignKeys(t0)
    requires PreparedAll(t0, prepared, stableId) && forall e :: e in rows <==> Unlinked(t0, e)
    requires ExactInbox(t0, t1, rows, |rows|, now) && ExactReconciliations(t0, t1, rows, |rows|, now)
    requires LinkedInboxes(t1, t, prepared, |prepared|) && LinksGrown(t1, t, prepared, |prepared|)
    ensures OutcomeInbox(t0, t, now, stableId)
  {
    hide UniqueInbox, UniqueReconciliations, UniqueEvidence, ForeignKeys, Unlinked, Ambiguous, Keyed, Misfit, SameEvent,
         PreparedFor;
    hide LinkedInboxes, LinksGrown, ExactInbox, ExactReconciliations, Needs, InboxIdFor, PreparedAll, LinkedInbox,
         InboxFor, FittedInbox;
    InboxKeysReached(t0, t1, t, rows, prepared, now, stableId);
    forall e | Needs(t0, e)
      ensures InboxIdFor(e, stableId) in t.inbox && e in t0.evidence && t0.evidence[e].reconciliationId in t0.recons
      ensures t.inbox[InboxIdFor(e, stableId)]
           == InboxFor(t0.evidence[e], InboxIdFor(e, stableId), ProviderOf(t0, t0.evidence[e]))
    {
      MadeReached(t0, t1, t, rows, prepared, now, e, stableId);
    }
    forall e, q | Unlinked(t0, e) && Keyed(t0, e, q)
      ensures e in t0.evidence && q in t0.inbox && q in t.inbox
      ensures t.inbox[q] ==
        if Misfit(t0, e, q) then AmbiguousInbox(t0.inbox[q], now) else FittedInbox(t0.evidence[e], t0.inbox[q])
    {
      FoundReached(t0, t1, t, rows, prepared, now, e, q, stableId);
    }
    forall q | q in t0.inbox && !IsFoundBySome(t0, q)
      ensures q in t.inbox && t.inbox[q] == t0.inbox[q]
    {
      OtherReached(t0, t1, t, rows, prepared, now, q, stableId);
    }
  }

  /** Provider ids survive the scan. */
  lemma SameProvider(t0: Tables, t1: Tables, rows: seq<string>, now: Instant, e: Evidence)
    requires ExactReconciliations(t0, t1, rows, |rows|, now) && e.reconciliationId in t0.recons
    ensures e.reconciliationId in t1.recons && ProviderOf(t1, e) == ProviderOf(t0, e)
  {
  }

  lemma PreparedOf(t0: Tables, prepared: seq<Prepared>, e: string, stableId: (string, string) -> string)
      returns (i: nat)
    requires PreparedAll(t0, prepared, stableId) && Unlinked(t0, e) && !Ambiguous(t0, e)
    ensures i < |prepared| && prepared[i].row.id == e && PreparedFor(t0, prepared[i], stableId)
    ensures PreparedExactly(t0, prepared[i])
  {
    hide Ambiguous, PreparedFor, PreparedExactly;
    i :| i < |prepared| && prepared[i].row.id == e;
  }

  lemma MadeReached(t0: Tables, t1: Tables, t: Tables, rows: seq<string>, prepared: seq<Prepared>, now: Instant,
        e: string, stableId: (string, string) -> string)
    requires PreparedAll(t0, prepared, stableId) && ExactReconciliations(t0, t1, rows, |rows|, now)
    requires LinkedInboxes(t1, t, prepared, |prepared|) && Needs(t0, e)
    ensures InboxIdFor(e, stableId) in t.inbox && e in t0.evidence && t0.evidence[e].reconciliationId in t0.recons
    ensures t.inbox[InboxIdFor(e, stableId)]
         == InboxFor(t0.evidence[e], InboxIdFor(e, stableId), ProviderOf(t0, t0.evidence[e]))
  {
    hide PreparedAll, Ambiguous, Keyed, ExactReconciliations, RowBefore, InboxBefore, InboxIdFor;
    NeedsNoSetAside(t0, e);
    var i := PreparedOf(t0, prepared, e, stableId);
    assert prepared[i].existing.None?;
    SameProvider(t0, t1, rows, now, t0.evidence[e]);
  }

  lemma FoundReached(t0: Tables, t1: Tables, t: Tables, rows: seq<string>, prepared: seq<Prepared>, now: Instant,
        e: string, q: string, stableId: (string, string) -> string)
    requires UniqueInbox(t0) && UniqueReconciliations(t0) && UniqueEvidence(t0) && ForeignKeys(t0)
    requires PreparedAll(t0, prepared, stableId) && forall x :: x in rows <==> Unlinked(t0, x)
    requires ExactInbox(t0, t1, rows, |rows|, now) && LinkedInboxes(t1, t, prepared, |prepared|)
    requires Unlinked(t0, e) && Keyed(t0, e, q)
    ensures e in t0.evidence && q in t0.inbox && q in t.inbox
    ensures t.inbox[q] ==
      if Misfit(t0, e, q) then AmbiguousInbox(t0.inbox[q], now) else FittedInbox(t0.evidence[e], t0.inbox[q])
  {
    hide UniqueInbox, UniqueReconciliations, UniqueEvidence, ForeignKeys, SameEvent, PreparedAll, RowBefore, Ambiguous;
    OneKeyed(t0, e, q);
    if Misfit(t0, e, q) {
      MisfitIsAmbiguous(t0, e, q);
      MisfitReached(t0, t1, t, rows, prepared, now, e, q, stableId);
    } else {
      FitsAll(t0, e, q);
      var i := PreparedOf(t0, prepared, e, stableId);
      assert prepared[i].inboxId == q;
    }
  }

  /** An inbox row has the key of one evidence row only, and an evidence row of one inbox row only. */
  lemma OneKeyed(t: Tables, e: string, q: string)
    requires UniqueInbox(t) && UniqueReconciliations(t) && UniqueEvidence(t) && ForeignKeys(t) && Keyed(t, e, q)
    ensures forall f | Keyed(t, f, q) :: f == e
    ensures forall x | Keyed(t, e, x) :: x == q
  {
    hide UniqueReconciliations, UniqueEvidence, ForeignKeys;
    forall f | Keyed(t, f, q)
      ensures f == e
    {
      if f != e {
        KeysTellEvidenceApart(t, e, f);
      }
    }
  }

  lemma FitsAll(t: Tables, e: string, q: string)
    requires Keyed(t, e, q) && !Misfit(t, e, q) && forall x | Keyed(t, e, x) :: x == q
    ensures !Ambiguous(t, e)
  {
  }

  /** What was prepared with an inbox row of the start was found for an evidence row that it fits. */
  lemma FoundByPrepared(t0: Tables, prepared: seq<Prepared>, q: string, stableId: (string, string) -> string)
    requires PreparedAll(t0, prepared, stableId) && q in t0.inbox
    ensures InboxBefore(prepared, |prepared|, q) ==>
      exists f :: Unlinked(t0, f) && Keyed(t0, f, q) && !Ambiguous(t0, f)
  {
    hide Keyed, Ambiguous, Unlinked;
    if InboxBefore(prepared, |prepared|, q) {
      var i: nat :| i < |prepared| && prepared[i].inboxId == q;
      assert PreparedFor(t0, prepared[i], stableId) && PreparedExactly(t0, prepared[i]);
      assert Unlinked(t0, prepared[i].row.id) && Keyed(t0, prepared[i].row.id, q);
    }
  }

  lemma MisfitReached(t0: Tables, t1: Tables, t: Tables, rows: seq<string>, prepared: seq<Prepared>, now: Instant,
        e: string, q: string, stableId: (string, string) -> string)
    requires PreparedAll(t0, prepared, stableId) && forall x :: x in rows <==> Unlinked(t0, x)
    requires ExactInbox(t0, t1, rows, |rows|, now) && LinkedInboxes(t1, t, prepared, |prepared|)
    requires Unlinked(t0, e) && Misfit(t0, e, q) && forall f | Keyed(t0, f, q) :: f == e
    requires Ambiguous(t0, e)
    ensures q in t.inbox && q in t0.inbox && t.inbox[q] == AmbiguousInbox(t0.inbox[q], now)
  {
    hide SameEvent, Ambiguous, RowBefore, Unlinked;
    assert e in rows;
    var k :| 0 <= k < |rows| && rows[k] == e;
    assert MisfitBefore(t0, rows, |rows|, q);
    FoundByPrepared(t0, prepared, q, stableId);
  }

  lemma OtherReached(t0: Tables, t1: Tables, t: Tables, rows: seq<string>, prepared: seq<Prepared>, now: Instant,
        q: string, stableId: (string, string) -> string)
    requires PreparedAll(t0, prepared, stableId) && forall x :: x in rows <==> Unlinked(t0, x)
    requires ExactInbox(t0, t1, rows, |rows|, now) && LinkedInboxes(t1, t, prepared, |prepared|)
    requires q in t0.inbox && !IsFoundBySome(t0, q)
    ensures q in t.inbox && t.inbox[q] == t0.inbox[q]
  {
    hide SameEvent, Ambiguous, Unlinked;
    FoundByPrepared(t0, prepared, q, stableId);
    assert forall k | 0 <= k < |rows| :: rows[k] in rows;
  }

  lemma InboxKeysReached(t0: Tables, t1: Tables, t: Tables, rows: seq<string>, prepared: seq<Prepared>, now: Instant,
      stableId: (string, string) -> string)
    requires PreparedAll(t0, prepared, stableId) && ExactInbox(t0, t1, rows, |rows|, now) && ForeignKeys(t0)
    requires LinksGrown(t1, t, prepared, |prepared|)
    ensures forall q :: q in t.inbox <==> q in t0.inbox || IsMade(t0, q, stableId)
  {
    hide Ambiguous, Keyed, ForeignKeys, InboxIdFor, IsLinked;
    forall q
      ensures q in t.inbox <==> q in t0.inbox || IsMade(t0, q, stableId)
    {
      if q in t.inbox && q !in t0.inbox {
        var i :| 0 <= i < |prepared| && prepared[i].inboxId == q;
        PreparedIsMade(t0, prepared[i], stableId);
      }
      if IsMade(t0, q, stableId) {
        var e :| Needs(t0, e) && InboxIdFor(e, stableId) == q;
        NeedsNoSetAside(t0, e);
        var i := PreparedOf(t0, prepared, e, stableId);
        assert prepared[i].inboxId == q;
      }
    }
  }

  lemma PreparedIsMade(t0: Tables, p: Prepared, stableId: (string, string) -> string)
    requires ForeignKeys(t0) && PreparedFor(t0, p, stableId) && PreparedExactly(t0, p) && Unlinked(t0, p.row.id)
    requires p.inboxId !in t0.inbox
    ensures IsMade(t0, p.inboxId, stableId)
  {
    hide Ambiguous;
    assert Needs(t0, p.row.id);
  }

  lemma ReconciliationsReached(t0: Tables, t1: Tables, t: Tables, rows: seq<string>, now: Instant)
    requires forall e :: e in rows <==> Unlinked(t0, e)
    requires ExactReconciliations(t0, t1, rows, |rows|, now) && t.recons == t1.recons
    ensures OutcomeReconciliations(t0, t, now)
  {
    hide Ambiguous, Unlinked;
    forall r | r in t0.recons
      ensures IsSetAside(t0, r) <==> AmbiguousBefore(t0, rows, |rows|, r)
    {
      if IsSetAside(t0, r) {
        var e :| e in t0.evidence && Unlinked(t0, e) && Ambiguous(t0, e) && t0.evidence[e].reconciliationId == r;
        var i :| 0 <= i < |rows| && rows[i] == e;
      }
      if AmbiguousBefore(t0, rows, |rows|, r) {
        var i :| 0 <= i < |rows| && rows[i] in t0.evidence && Ambiguous(t0, rows[i])
          && t0.evidence[rows[i]].reconciliationId == r;
        assert rows[i] in rows;
      }
    }
  }

  lemma AuditsReached(t0: Tables, t1: Tables, t: Tables, rows: seq<string>, stableId: (string, string) -> string)
    requires forall e :: e in rows <==> Unlinked(t0, e)
    requires ExactAudits(t0, t1, rows, |rows|, stableId) && ScanTrack(t0, t1, rows, |rows|, stableId)
    requires t.audits == t1.audits
    ensures OutcomeAudits(t0, t, stableId)
  {
    hide Ambiguous, Unlinked, Misfit, AmbiguityIdFor, IsAudited, AuditedBefore, Audits, Keyed, AmbiguousBefore;
    forall a
      ensures IsAudited(t0, a, stableId) <==> AuditedBefore(t0, rows, |rows|, a, stableId)
    {
      AuditedIff(t0, rows, a, stableId);
    }
    forall e, q | Unlinked(t0, e) && Misfit(t0, e, q)
      ensures Audits(t0, t, e, q, stableId)
    {
      assert e in rows;
      var i :| 0 <= i < |rows| && rows[i] == e;
      assert Audits(t0, t1, rows[i], q, stableId);
      AuditsAlike(t0, t1, t, e, q, stableId);
    }
  }

  lemma AuditsAlike(t0: Tables, t1: Tables, t: Tables, e: string, q: string, stableId: (string, string) -> string)
    requires t.audits == t1.audits && Audits(t0, t1, e, q, stableId)
    ensures Audits(t0, t, e, q, stableId)
  {
    hide AmbiguityIdFor;
  }

  lemma AuditedIff(t0: Tables, rows: seq<string>, a: string, stableId: (string, string) -> string)
    requires forall e :: e in rows <==> Unlinked(t0, e)
    ensures IsAudited(t0, a, stableId) <==> AuditedBefore(t0, rows, |rows|, a, stableId)
  {
    hide Ambiguous, Unlinked, AmbiguityIdFor;
    if IsAudited(t0, a, stableId) {
      var e :| Unlinked(t0, e) && Ambiguous(t0, e) && AmbiguityIdFor(e, stableId) == a;
      var i :| 0 <= i < |rows| && rows[i] == e;
    }
    if AuditedBefore(t0, rows, |rows|, a, stableId) {
      var i :| 0 <= i < |rows| && Ambiguous(t0, rows[i]) && AmbiguityIdFor(rows[i], stableId) == a;
      assert rows[i] in rows;
    }
  }
}
