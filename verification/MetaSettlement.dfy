/**
 What the recovery of quarantined inbox rows in migration 0030 leaves when it finishes, row by
 row, said by the tables it starts from: the parked inbox rows that have a match, their
 reconciliations, the evidence rows written or linked for them, and their audit rows.
 */
module MetaSettlement {
  import opened Common
  import opened MetaTables
  import opened MetaBackfill
  import opened MetaCorrelation
  import opened MetaOutcome

  /** A match of the tables, with the reconciliation as they hold it. */
  ghost predicate Exact(t: Tables, m: Match) {
    Ready(t, m) && t.recons[m.recon.id] == m.recon
  }

  function WrittenEvidence(m: Match, stableId: (string, string) -> string): Evidence {
    EvidenceOf(m, EvidenceIdFor(m, stableId))
  }

  ghost predicate IsMatched(t: Tables, q: string) {
    exists m: Match :: Exact(t, m) && m.row.id == q
  }

  ghost predicate IsDue(t: Tables, r: string) {
    exists m: Match :: Exact(t, m) && m.recon.id == r
  }

  ghost predicate IsWritten(t: Tables, e: string, stableId: (string, string) -> string) {
    exists m: Match :: Exact(t, m) && WrittenEvidence(m, stableId).id == e
  }

  ghost predicate IsRecorded(t: Tables, a: string, stableId: (string, string) -> string) {
    exists m: Match :: Exact(t, m) && AuditIdFor(m, stableId) == a
  }

  /** The tables after a recovery that finishes. Everything that no match names is as it was. */
  ghost predicate Settlement(t0: Tables, t: Tables, now: Instant, stableId: (string, string) -> string) {
    && SettledInbox(t0, t)
    && SettledReconciliations(t0, t, now)
    && SettledEvidence(t0, t, stableId)
    && SettledAudits(t0, t, stableId)
  }

  ghost predicate SettledInbox(t0: Tables, t: Tables) {
    && t.inbox.Keys == t0.inbox.Keys
    && (forall m | Exact(t0, m) :: t.inbox[m.row.id] == CorrelatedInbox(m.row, m.recon.id, m.recon.acceptedAt))
    && forall q | q in t0.inbox && !IsMatched(t0, q) :: t.inbox[q] == t0.inbox[q]
  }

  ghost predicate SettledReconciliations(t0: Tables, t: Tables, now: Instant) {
    && t.recons.Keys == t0.recons.Keys
    && forall r | r in t0.recons ::
         t.recons[r] == if IsDue(t0, r) then DueNow(t0.recons[r], now) else t0.recons[r]
  }

  ghost predicate SettledEvidence(t0: Tables, t: Tables, stableId: (string, string) -> string) {
    && (forall e :: e in t.evidence <==> e in t0.evidence || IsWritten(t0, e, stableId))
    && (forall m | Exact(t0, m) :: Holds(t, WrittenEvidence(m, stableId)))
    && forall e | e in t0.evidence && !IsWritten(t0, e, stableId) :: e in t.evidence && t.evidence[e] == t0.evidence[e]
  }

  ghost predicate Holds(t: Tables, e: Evidence) {
    e.id in t.evidence && t.evidence[e.id] == e
  }

  ghost predicate SettledAudits(t0: Tables, t: Tables, stableId: (string, string) -> string) {
    && (forall a :: a in t.audits <==> a in t0.audits || IsRecorded(t0, a, stableId))
    && (forall m | Exact(t0, m) :: Records(t, m, stableId))
    && forall a | a in t0.audits && !IsRecorded(t0, a, stableId) :: a in t.audits && t.audits[a] == t0.audits[a]
  }

  ghost predicate Records(t: Tables, m: Match, stableId: (string, string) -> string) {
    && AuditIdFor(m, stableId) in t.audits
    && t.audits[AuditIdFor(m, stableId)] == AcceptanceAudit(AuditIdFor(m, stableId), m)
  }

  /** There is one such outcome at most: the tables before the recovery decide the tables after it. */
  lemma SettlementIsUnique(t0: Tables, t: Tables, u: Tables, now: Instant, stableId: (string, string) -> string)
    requires Settlement(t0, t, now, stableId) && Settlement(t0, u, now, stableId)
    ensures t == u
  {
    hide Exact, SettledReconciliations, SettledInbox, SettledEvidence, SettledAudits;
    SameSettledInbox(t0, t, u);
    SameSettledReconciliations(t0, t, u, now);
    SameSettledEvidence(t0, t, u, stableId);
    SameSettledAudits(t0, t, u, stableId);
  }

  lemma SameSettledInbox(t0: Tables, t: Tables, u: Tables)
    requires SettledInbox(t0, t) && SettledInbox(t0, u)
    ensures t.inbox == u.inbox
  {
    hide CorrelatedInbox, Ready;
    forall q | q in t0.inbox
      ensures t.inbox[q] == u.inbox[q]
    {
      if m: Match :| Exact(t0, m) && m.row.id == q {
        assert t.inbox[m.row.id] == u.inbox[m.row.id];
      } else {
        assert !IsMatched(t0, q);
      }
    }
  }

  lemma SameSettledReconciliations(t0: Tables, t: Tables, u: Tables, now: Instant)
    requires SettledReconciliations(t0, t, now) && SettledReconciliations(t0, u, now)
    ensures t.recons == u.recons
  {
    hide IsDue, DueNow;
  }

  lemma SameSettledEvidence(t0: Tables, t: Tables, u: Tables, stableId: (string, string) -> string)
    requires SettledEvidence(t0, t, stableId) && SettledEvidence(t0, u, stableId)
    ensures t.evidence == u.evidence
  {
    hide Exact, WrittenEvidence;
    forall e | e in t.evidence
      ensures e in u.evidence && t.evidence[e] == u.evidence[e]
    {
      if IsWritten(t0, e, stableId) {
        var m: Match :| Exact(t0, m) && WrittenEvidence(m, stableId).id == e;
        assert Holds(t, WrittenEvidence(m, stableId)) && Holds(u, WrittenEvidence(m, stableId));
      }
    }
    assert t.evidence.Keys == u.evidence.Keys;
  }

  lemma SameSettledAudits(t0: Tables, t: Tables, u: Tables, stableId: (string, string) -> string)
    requires SettledAudits(t0, t, stableId) && SettledAudits(t0, u, stableId)
    ensures t.audits == u.audits
  {
    hide Exact, AuditIdFor;
    forall a | a in t.audits
      ensures a in u.audits && t.audits[a] == u.audits[a]
    {
      if IsRecorded(t0, a, stableId) {
        var m: Match :| Exact(t0, m) && AuditIdFor(m, stableId) == a;
        assert Records(t, m, stableId) && Records(u, m, stableId);
      }
    }
    assert t.audits.Keys == u.audits.Keys;
  }

  // ----- the second loop, exactly -----

  /** The tables after the first `n` matches were written, exactly. */
  ghost predicate WriteExact(t0: Tables, t: Tables, matched: seq<Match>, n: nat, now: Instant,
        stableId: (string, string) -> string)
    requires n <= |matched|
  {
    && WroteInbox(t0, t, matched, n)
    && WroteReconciliations(t0, t, matched, n, now)
    && WroteEvidence(t0, t, matched, n, stableId)
    && WroteAudits(t0, t, matched, n, stableId)
  }

  ghost predicate WroteInbox(t0: Tables, t: Tables, matched: seq<Match>, n: nat)
    requires n <= |matched|
  {
    && t.inbox.Keys == t0.inbox.Keys
    && (forall i | 0 <= i < n ::
          && matched[i].row.id in t0.inbox
          && t.inbox[matched[i].row.id]
               == CorrelatedInbox(matched[i].row, matched[i].recon.id, matched[i].recon.acceptedAt))
    && forall q | q in t0.inbox && !MatchedBefore(matched, n, q) :: t.inbox[q] == t0.inbox[q]
  }

  ghost predicate MatchedBefore(matched: seq<Match>, n: nat, q: string)
    requires n <= |matched|
  {
    exists i :: 0 <= i < n && matched[i].row.id == q
  }

  ghost predicate DueBefore(matched: seq<Match>, n: nat, r: string)
    requires n <= |matched|
  {
    exists i :: 0 <= i < n && matched[i].recon.id == r
  }

  ghost predicate WroteReconciliations(t0: Tables, t: Tables, matched: seq<Match>, n: nat, now: Instant)
    requires n <= |matched|
  {
    && t.recons.Keys == t0.recons.Keys
    && forall r | r in t0.recons ::
         t.recons[r] == if DueBefore(matched, n, r) then DueNow(t0.recons[r], now) else t0.recons[r]
  }

  ghost predicate WrittenBefore(matched: seq<Match>, n: nat, e: string, stableId: (string, string) -> string)
    requires n <= |matched|
  {
    exists i :: 0 <= i < n && WrittenEvidence(matched[i], stableId).id == e
  }

  ghost predicate WroteEvidence(t0: Tables, t: Tables, matched: seq<Match>, n: nat,
        stableId: (string, string) -> string)
    requires n <= |matched|
  {
    && (forall e :: e in t.evidence <==> e in t0.evidence || WrittenBefore(matched, n, e, stableId))
    && (forall i | 0 <= i < n :: Holds(t, WrittenEvidence(matched[i], stableId)))
    && forall e | e in t0.evidence && !WrittenBefore(matched, n, e, stableId) :: t.evidence[e] == t0.evidence[e]
  }

  ghost predicate RecordedBefore(matched: seq<Match>, n: nat, a: string, stableId: (string, string) -> string)
    requires n <= |matched|
  {
    exists i :: 0 <= i < n && AuditIdFor(matched[i], stableId) == a
  }

  ghost predicate WroteAudits(t0: Tables, t: Tables, matched: seq<Match>, n: nat, stableId: (string, string) -> string)
    requires n <= |matched|
  {
    && (forall a :: a in t.audits <==> a in t0.audits || RecordedBefore(matched, n, a, stableId))
    && (forall i | 0 <= i < n :: Records(t, matched[i], stableId))
    && forall a | a in t0.audits && !RecordedBefore(matched, n, a, stableId) :: t.audits[a] == t0.audits[a]
  }

  lemma NothingWritten(t: Tables, matched: seq<Match>, now: Instant, stableId: (string, string) -> string)
    ensures WriteExact(t, t, matched, 0, now, stableId)
  {
  }

  lemma WriteMore(matched: seq<Match>, n: nat, stableId: (string, string) -> string)
    requires n < |matched|
    ensures forall q :: MatchedBefore(matched, n + 1, q) <==> MatchedBefore(matched, n, q) || matched[n].row.id == q
    ensures forall r :: DueBefore(matched, n + 1, r) <==> DueBefore(matched, n, r) || matched[n].recon.id == r
    ensures forall e :: WrittenBefore(matched, n + 1, e, stableId) <==>
      WrittenBefore(matched, n, e, stableId) || WrittenEvidence(matched[n], stableId).id == e
    ensures forall a :: RecordedBefore(matched, n + 1, a, stableId) <==>
      RecordedBefore(matched, n, a, stableId) || AuditIdFor(matched[n], stableId) == a
  {
    hide WrittenEvidence, AuditIdFor;
    assert 0 <= n < n + 1;
    forall q | MatchedBefore(matched, n, q)
      ensures MatchedBefore(matched, n + 1, q)
    {
      var i :| 0 <= i < n && matched[i].row.id == q;
      assert 0 <= i < n + 1;
    }
    forall r | DueBefore(matched, n, r)
      ensures DueBefore(matched, n + 1, r)
    {
      var i :| 0 <= i < n && matched[i].recon.id == r;
      assert 0 <= i < n + 1;
    }
    forall e | WrittenBefore(matched, n, e, stableId)
      ensures WrittenBefore(matched, n + 1, e, stableId)
    {
      var i :| 0 <= i < n && WrittenEvidence(matched[i], stableId).id == e;
      assert 0 <= i < n + 1;
    }
    forall a | RecordedBefore(matched, n, a, stableId)
      ensures RecordedBefore(matched, n + 1, a, stableId)
    {
      var i :| 0 <= i < n && AuditIdFor(matched[i], stableId) == a;
      assert 0 <= i < n + 1;
    }
  }

  /** Moving a due time up twice is moving it up once. */
  lemma DueTwice(r: Reconciliation, now: Instant)
    ensures DueNow(DueNow(r, now), now) == DueNow(r, now)
  {
  }

  /** Two matches of the start never write the same evidence row. */
  lemma WritesApart(t0: Tables, m: Match, o: Match, stableId: (string, string) -> string)
    requires UniqueInbox(t0) && Ready(t0, m) && Ready(t0, o) && m.row.id != o.row.id
    requires Free(t0, m, stableId) && Free(t0, o, stableId) && Differ(m, o, stableId)
    ensures WrittenEvidence(m, stableId).id != WrittenEvidence(o, stableId).id
  {
    hide UniqueInbox, EvidenceIdFor, AuditIdFor;
    KeysTellInboxApart(t0, m, EvidenceIdFor(m, stableId), o);
  }

  lemma WriteExactAdvances(t0: Tables, t: Tables, matched: seq<Match>, n: nat, now: Instant,
        stableId: (string, string) -> string)
    requires UniqueInbox(t0) && n < |matched| && forall i | 0 <= i < |matched| :: Ready(t0, matched[i])
    requires forall i, j | 0 <= i < j < |matched| :: matched[i].row.id != matched[j].row.id
    requires IdsFree(t0, matched, n + 1, stableId) && matched[n].recon.id in t.recons
    requires WriteExact(t0, t, matched, n, now, stableId)
    ensures WriteExact(t0,
      Correlate(t, matched[n], now, EvidenceIdFor(matched[n], stableId), AuditIdFor(matched[n], stableId)),
      matched, n + 1, now, stableId)
  {
    hide UniqueInbox, Ready, EvidenceIdFor, AuditIdFor, CorrelatedInbox, AcceptanceAudit, EvidenceOf;
    hide WroteInbox, WroteReconciliations, WroteEvidence, WroteAudits, Free, Differ;
    WroteMoreInbox(t0, t, matched, n, now, stableId);
    WroteMoreReconciliations(t0, t, matched, n, now, stableId);
    WroteMoreEvidence(t0, t, matched, n, now, stableId);
    WroteMoreAudits(t0, t, matched, n, now, stableId);
  }

  function Wrote(t: Tables, m: Match, now: Instant, stableId: (string, string) -> string): Tables
    requires m.recon.id in t.recons
  {
    Correlate(t, m, now, EvidenceIdFor(m, stableId), AuditIdFor(m, stableId))
  }

  lemma WroteMoreInbox(t0: Tables, t: Tables, matched: seq<Match>, n: nat, now: Instant,
        stableId: (string, string) -> string)
    requires n < |matched| && Ready(t0, matched[n]) && matched[n].recon.id in t.recons && WroteInbox(t0, t, matched, n)
    requires forall i, j | 0 <= i < j < |matched| :: matched[i].row.id != matched[j].row.id
    ensures WroteInbox(t0, Wrote(t, matched[n], now, stableId), matched, n + 1)
  {
    hide CorrelatedInbox, EvidenceOf, AcceptanceAudit, DueNow, Ready, EvidenceIdFor, AuditIdFor, MatchedBefore,
         DueBefore, WrittenBefore, RecordedBefore;
    ReadyRows(t0, matched[n]);
    WriteMore(matched, n, stableId);
    var m, u := matched[n], Wrote(t, matched[n], now, stableId);
    assert u.inbox == t.inbox[m.row.id := CorrelatedInbox(m.row, m.recon.id, m.recon.acceptedAt)];
    forall i | 0 <= i < n + 1
      ensures u.inbox[matched[i].row.id]
        == CorrelatedInbox(matched[i].row, matched[i].recon.id, matched[i].recon.acceptedAt)
    {
      assert i < n ==> matched[i].row.id != m.row.id;
    }
  }

  lemma WroteMoreReconciliations(t0: Tables, t: Tables, matched: seq<Match>, n: nat, now: Instant,
        stableId: (string, string) -> string)
    requires n < |matched| && matched[n].recon.id in t.recons && WroteReconciliations(t0, t, matched, n, now)
    ensures WroteReconciliations(t0, Wrote(t, matched[n], now, stableId), matched, n + 1, now)
  {
    hide DueNow, DueBefore, EvidenceOf, AcceptanceAudit, WrittenBefore, RecordedBefore;
    WriteMore(matched, n, stableId);
    DueTwice(t0.recons[matched[n].recon.id], now);
  }

  lemma WroteMoreEvidence(t0: Tables, t: Tables, matched: seq<Match>, n: nat, now: Instant,
        stableId: (string, string) -> string)
    requires UniqueInbox(t0) && n < |matched| && forall i | 0 <= i < |matched| :: Ready(t0, matched[i])
    requires forall i, j | 0 <= i < j < |matched| :: matched[i].row.id != matched[j].row.id
    requires IdsFree(t0, matched, n + 1, stableId) && matched[n].recon.id in t.recons
    requires WroteEvidence(t0, t, matched, n, stableId)
    ensures WroteEvidence(t0, Wrote(t, matched[n], now, stableId), matched, n + 1, stableId)
  {
    hide UniqueInbox, Ready, Free, Differ, EvidenceOf, DueNow, AcceptanceAudit, WrittenBefore, DueBefore,
         RecordedBefore;
    WriteMore(matched, n, stableId);
    var x := WrittenEvidence(matched[n], stableId);
    forall i | 0 <= i < n
      ensures WrittenEvidence(matched[i], stableId).id != x.id
    {
      WritesApart(t0, matched[i], matched[n], stableId);
    }
    var u := Wrote(t, matched[n], now, stableId);
    assert u.evidence == t.evidence[x.id := x];
    forall i | 0 <= i < n + 1
      ensures Holds(u, WrittenEvidence(matched[i], stableId))
    {
      if i < n {
        assert Holds(t, WrittenEvidence(matched[i], stableId));
      }
    }
  }

  lemma WroteMoreAudits(t0: Tables, t: Tables, matched: seq<Match>, n: nat, now: Instant,
        stableId: (string, string) -> string)
    requires n < |matched| && matched[n].recon.id in t.recons
    requires IdsFree(t0, matched, n + 1, stableId) && WroteAudits(t0, t, matched, n, stableId)
    ensures WroteAudits(t0, Wrote(t, matched[n], now, stableId), matched, n + 1, stableId)
  {
    hide EvidenceOf, DueNow, AcceptanceAudit, WrittenBefore, DueBefore, RecordedBefore, AuditIdFor;
    WriteMore(matched, n, stableId);
    var u := Wrote(t, matched[n], now, stableId);
    forall i | 0 <= i < n + 1
      ensures Records(u, matched[i], stableId)
    {
      if i < n {
        assert Records(t, matched[i], stableId) && Differ(matched[i], matched[n], stableId);
      }
    }
  }

  // ----- from the loop to the outcome -----

  /** The list holds every match of the tables, each as they hold it. */
  ghost predicate ListsAll(t: Tables, matched: seq<Match>) {
    && (forall i | 0 <= i < |matched| :: Exact(t, matched[i]))
    && forall m | Exact(t, m) :: m in matched
  }

  lemma MatchesAreListed(t: Tables, rows: seq<string>, matched: seq<Match>)
    requires KeysMatch(t) && UniqueReconciliations(t) && |matched| == |rows|
    requires forall q :: q in rows <==> Recoverable(t, q)
    requires forall i | 0 <= i < |matched| :: matched[i].row.id == rows[i] && Exact(t, matched[i])
    ensures ListsAll(t, matched)
  {
    hide Ready, UniqueReconciliations, Recoverable, KeysMatch;
    forall m | Exact(t, m)
      ensures m in matched
    {
      ReadyIsRecoverable(t, m);
      var i := PositionOf(t, rows, matched, m.row.id);
      MatchIsUnique(t, m, matched[i]);
      ReadyRows(t, m);
      ReadyRows(t, matched[i]);
      assert m == matched[i];
    }
  }

  /** What the loop leaves is the outcome. */
  lemma SettlementReached(t0: Tables, t: Tables, matched: seq<Match>, now: Instant,
        stableId: (string, string) -> string)
    requires ListsAll(t0, matched) && WriteExact(t0, t, matched, |matched|, now, stableId)
    ensures Settlement(t0, t, now, stableId)
  {
    hide ListsAll, WroteInbox, WroteReconciliations, WroteEvidence, WroteAudits;
    hide SettledInbox, SettledReconciliations, SettledEvidence, SettledAudits;
    InboxSettled(t0, t, matched);
    ReconciliationsSettled(t0, t, matched, now);
    EvidenceSettled(t0, t, matched, stableId);
    AuditsSettled(t0, t, matched, stableId);
  }

  lemma PlaceOf(t: Tables, matched: seq<Match>, m: Match) returns (i: nat)
    requires ListsAll(t, matched) && Exact(t, m)
    ensures i < |matched| && matched[i] == m
  {
    hide Exact;
    i :| i < |matched| && matched[i] == m;
  }

  lemma InboxSettled(t0: Tables, t: Tables, matched: seq<Match>)
    requires ListsAll(t0, matched) && WroteInbox(t0, t, matched, |matched|)
    ensures SettledInbox(t0, t)
  {
    hide ListsAll, Exact, CorrelatedInbox;
    forall m | Exact(t0, m)
      ensures m.row.id in t0.inbox
      ensures t.inbox[m.row.id] == CorrelatedInbox(m.row, m.recon.id, m.recon.acceptedAt)
    {
      var i := PlaceOf(t0, matched, m);
    }
    forall q | q in t0.inbox && !IsMatched(t0, q)
      ensures t.inbox[q] == t0.inbox[q]
    {
      if i :| 0 <= i < |matched| && matched[i].row.id == q {
        ListedIsExact(t0, matched, i);
      }
    }
  }

  lemma ListedIsExact(t: Tables, matched: seq<Match>, i: nat)
    requires ListsAll(t, matched) && i < |matched|
    ensures Exact(t, matched[i])
  {
    hide Exact;
  }

  lemma ReconciliationsSettled(t0: Tables, t: Tables, matched: seq<Match>, now: Instant)
    requires ListsAll(t0, matched) && WroteReconciliations(t0, t, matched, |matched|, now)
    ensures SettledReconciliations(t0, t, now)
  {
    hide ListsAll, Exact, DueNow;
    forall r
      ensures IsDue(t0, r) <==> DueBefore(matched, |matched|, r)
    {
      if m: Match :| Exact(t0, m) && m.recon.id == r {
        var i := PlaceOf(t0, matched, m);
      }
      if i :| 0 <= i < |matched| && matched[i].recon.id == r {
        ListedIsExact(t0, matched, i);
      }
    }
  }

  lemma EvidenceSettled(t0: Tables, t: Tables, matched: seq<Match>, stableId: (string, string) -> string)
    requires ListsAll(t0, matched) && WroteEvidence(t0, t, matched, |matched|, stableId)
    ensures SettledEvidence(t0, t, stableId)
  {
    hide ListsAll, Exact, WrittenEvidence, Holds;
    forall m | Exact(t0, m)
      ensures Holds(t, WrittenEvidence(m, stableId))
      ensures WrittenBefore(matched, |matched|, WrittenEvidence(m, stableId).id, stableId)
    {
      var i := PlaceOf(t0, matched, m);
    }
    forall e
      ensures IsWritten(t0, e, stableId) <==> WrittenBefore(matched, |matched|, e, stableId)
    {
      if i :| 0 <= i < |matched| && WrittenEvidence(matched[i], stableId).id == e {
        ListedIsExact(t0, matched, i);
      }
    }
  }

  lemma AuditsSettled(t0: Tables, t: Tables, matched: seq<Match>, stableId: (string, string) -> string)
    requires ListsAll(t0, matched) && WroteAudits(t0, t, matched, |matched|, stableId)
    ensures SettledAudits(t0, t, stableId)
  {
    hide ListsAll, Exact, AuditIdFor, Records;
    forall m | Exact(t0, m)
      ensures Records(t, m, stableId)
      ensures RecordedBefore(matched, |matched|, AuditIdFor(m, stableId), stableId)
    {
      var i := PlaceOf(t0, matched, m);
    }
    forall a
      ensures IsRecorded(t0, a, stableId) <==> RecordedBefore(matched, |matched|, a, stableId)
    {
      if i :| 0 <= i < |matched| && AuditIdFor(matched[i], stableId) == a {
        ListedIsExact(t0, matched, i);
      }
    }
  }
}
