/**
 Whole runs of statements against the tables of MetaTables. Every statement an
 application can send is a command, including inserts, deletes and rewritten keys; the
 audit table has no guard, so any change to it is a command too. What the guards promise
 is stated over sequences of table states.
 */
module MetaLifecycle {
  import opened Common
  import opened MetaTables

  datatype Command =
    | InsertReconciliation(recon: Reconciliation)
    | UpdateReconciliation(key: string, recon: Reconciliation)
    | DeleteReconciliation(key: string)
    | InsertInbox(row: Inbox)
    | UpdateInbox(key: string, row: Inbox)
    | DeleteInbox(key: string)
    | InsertEvidence(evidence: Evidence)
    | UpdateEvidence(key: string, evidence: Evidence)
    | DeleteEvidence(key: string)
    | PutAudit(audit: Audit)
    | DeleteAudit(key: string)

  /** The row triggers and primary keys, evaluated against the tables a statement finds. */
  predicate Permitted(t: Tables, c: Command) {
    match c
    case InsertReconciliation(r) => r.id !in t.recons
    case UpdateReconciliation(k, r) =>
      && k in t.recons
      && (r.id == k || r.id !in t.recons)
      && LifecycleAllows(t.recons[k], r)
      && QuarantineAllows(t.audits, t.recons[k], r)
    case DeleteReconciliation(k) => k in t.recons
    case InsertInbox(q) => q.id !in t.inbox
    case UpdateInbox(k, q) =>
      && k in t.inbox
      && (q.id == k || q.id !in t.inbox)
      && InboxAllows(t, t.inbox[k], q)
    case DeleteInbox(k) => k in t.inbox
    case InsertEvidence(e) => e.id !in t.evidence
    case UpdateEvidence(_, _) => false
    case DeleteEvidence(_) => false
    case PutAudit(_) => true
    case DeleteAudit(_) => true
  }

  /** The tables a statement would leave behind. */
  function Effect(t: Tables, c: Command): Tables {
    match c
    case InsertReconciliation(r) => t.(recons := t.recons[r.id := r])
    case UpdateReconciliation(k, r) => t.(recons := (t.recons - {k})[r.id := r])
    case DeleteReconciliation(k) => t.(recons := t.recons - {k})
    case InsertInbox(q) => t.(inbox := t.inbox[q.id := q])
    case UpdateInbox(k, q) => t.(inbox := (t.inbox - {k})[q.id := q])
    case DeleteInbox(k) => t.(inbox := t.inbox - {k})
    case InsertEvidence(e) => t.(evidence := t.evidence[e.id := e])
    case UpdateEvidence(k, e) => t.(evidence := (t.evidence - {k})[e.id := e])
    case DeleteEvidence(k) => t.(evidence := t.evidence - {k})
    case PutAudit(a) => t.(audits := t.audits[a.id := a])
    case DeleteAudit(k) => t.(audits := t.audits - {k})
  }

  predicate Accepted(t: Tables, c: Command) {
    Permitted(t, c) && Consistent(Effect(t, c))
  }

  function Execute(t: Tables, c: Command): Tables {
    if Accepted(t, c) then Effect(t, c) else t
  }

  /** The live tables: a refused statement leaves every one of them alone. */
  class MetaStore {
    var recons: map<string, Reconciliation>
    var inbox: map<string, Inbox>
    var evidence: map<string, Evidence>
    var audits: map<string, Audit>

    function Contents(): Tables
      reads this
    {
      Tables(recons, inbox, evidence, audits)
    }

    constructor ()
      ensures Consistent(Contents())
      ensures Contents() == Tables(map[], map[], map[], map[])
    {
      recons, inbox, evidence, audits := map[], map[], map[], map[];
    }

    /** Writes the one table a statement addresses. */
    method Write(c: Command)
      requires Permitted(Contents(), c)
      modifies this
      ensures Contents() == Effect(old(Contents()), c)
    {
      match c {
        case InsertReconciliation(r) => recons := recons[r.id := r];
        case UpdateReconciliation(k, r) => recons := (recons - {k})[r.id := r];
        case DeleteReconciliation(k) => recons := recons - {k};
        case InsertInbox(q) => inbox := inbox[q.id := q];
        case UpdateInbox(k, q) => inbox := (inbox - {k})[q.id := q];
        case DeleteInbox(k) => inbox := inbox - {k};
        case InsertEvidence(e) => evidence := evidence[e.id := e];
        case UpdateEvidence(_, _) =>
        case DeleteEvidence(_) =>
        case PutAudit(a) => audits := audits[a.id := a];
        case DeleteAudit(k) => audits := audits - {k};
      }
    }

    /** Triggers first, then the write, then the constraints; a violation undoes the write. */
    method Run(c: Command) returns (ok: bool)
      requires Consistent(Contents())
      modifies this
      ensures ok == Accepted(old(Contents()), c)
      ensures Contents() == Execute(old(Contents()), c)
    {
      var before := Contents();
      ok := Permitted(before, c);
      if ok {
        Write(c);
        ok := Consistent(Contents());
        if !ok {
          recons, inbox, evidence, audits := before.recons, before.inbox, before.evidence, before.audits;
        }
      }
    }
  }

  /** A run starts from consistent tables and sends one statement after another. */
  ghost predicate IsRun(run: seq<Tables>) {
    && |run| > 0
    && Consistent(run[0])
    && (forall i {:trigger Next(run[i], run[i + 1])} | 0 <= i < |run| - 1 :: Next(run[i], run[i + 1]))
  }

  ghost predicate Next(t: Tables, u: Tables) {
    exists c :: u == Execute(t, c)
  }

  lemma NextKeepsConsistent(t: Tables, u: Tables)
    requires Consistent(t) && Next(t, u)
    ensures Consistent(u)
  {
    var c :| u == Execute(t, c);
  }

  lemma {:induction false} AlwaysConsistent(run: seq<Tables>, i: nat)
    requires IsRun(run) && i < |run|
    ensures Consistent(run[i])
  {
    if i > 0 {
      var k := i - 1;
      AlwaysConsistent(run, k);
      assert Next(run[k], run[k + 1]);
      NextKeepsConsistent(run[k], run[k + 1]);
    }
  }

  // ----- reconciliations -----

  /** The reconciliation keyed `id` is there in every state from `i` to `j`. */
  ghost predicate Stays(run: seq<Tables>, id: string, i: nat, j: nat) {
    i <= j < |run| && forall k | i <= k <= j :: id in run[k].recons
  }

  ghost predicate SameWindow(r: Reconciliation, s: Reconciliation) {
    && r.outboxId == s.outboxId
    && r.providerId == s.providerId
    && r.tenantId == s.tenantId
    && r.acceptedAt == s.acceptedAt
    && r.deadlineAt == s.deadlineAt
    && r.closureAfter == s.closureAfter
  }

  /** One statement changes a reconciliation only through both of its triggers. */
  lemma ReconciliationStatement(t: Tables, c: Command, id: string)
    requires Permitted(t, c)
    requires id in t.recons && id in Effect(t, c).recons
    ensures LifecycleAllows(t.recons[id], Effect(t, c).recons[id])
    ensures QuarantineAllows(t.audits, t.recons[id], Effect(t, c).recons[id])
  {
    if c.UpdateReconciliation? && c.key != id {
      assert Effect(t, c).recons[id] == t.recons[id];
    }
  }

  lemma ReconciliationStep(run: seq<Tables>, id: string, k: nat)
    requires IsRun(run) && k + 1 < |run|
    requires id in run[k].recons && id in run[k + 1].recons
    ensures LifecycleAllows(run[k].recons[id], run[k + 1].recons[id])
    ensures QuarantineAllows(run[k].audits, run[k].recons[id], run[k + 1].recons[id])
  {
    var t, u := run[k], run[k + 1];
    assert Next(t, u);
    var c :| u == Execute(t, c);
    if Accepted(t, c) {
      ReconciliationStatement(t, c, id);
    }
  }

  lemma KeysMatchAt(run: seq<Tables>, k: nat)
    requires IsRun(run) && k < |run|
    ensures KeysMatch(run[k])
  {
    AlwaysConsistent(run, k);
  }

  lemma ReconciliationAt(run: seq<Tables>, id: string, k: nat)
    requires IsRun(run) && k < |run| && id in run[k].recons
    ensures run[k].recons[id].id == id
    ensures ReconciliationCheck(run[k].recons[id])
  {
    AlwaysConsistent(run, k);
  }

  /** Identity and windows never change, and the windows stay ordered. */
  lemma {:induction false} WindowsNeverChange(run: seq<Tables>, id: string, i: nat, j: nat)
    requires IsRun(run) && Stays(run, id, i, j)
    ensures SameWindow(run[i].recons[id], run[j].recons[id])
    ensures run[j].recons[id].acceptedAt < run[j].recons[id].deadlineAt < run[j].recons[id].closureAfter
    decreases j - i
  {
    ReconciliationAt(run, id, j);
    if i < j {
      WindowsNeverChange(run, id, i, j - 1);
      ReconciliationStep(run, id, j - 1);
    }
  }

  /** A terminal reconciliation is frozen, and it is never quarantined. */
  lemma {:induction false} TerminalIsFrozen(run: seq<Tables>, id: string, i: nat, j: nat)
    requires IsRun(run) && Stays(run, id, i, j)
    requires run[i].recons[id].state != Pending
    ensures run[j].recons[id] == run[i].recons[id]
    ensures run[j].recons[id].operational == Active
    decreases j - i
  {
    hide Consistent;
    ReconciliationAt(run, id, j);
    if i < j {
      TerminalIsFrozen(run, id, i, j - 1);
      ReconciliationStep(run, id, j - 1);
    }
  }

  /** Between `k` and `k + 1` the reconciliation leaves quarantine, with an audit that says so. */
  ghost predicate AuditedRequeue(run: seq<Tables>, id: string, k: nat) {
    && k + 1 < |run| && id in run[k].recons && id in run[k + 1].recons
    && var before, after := run[k].recons[id], run[k + 1].recons[id];
    && before.operational == Quarantined
    && after.operational == Active
    && after.state == Pending
    && after.failureCount == 0
    && after.requeueAuditId.Some?
    && after.requeueAuditId != before.requeueAuditId
    && after.requeueAuditId.value in run[k].audits
    && AuthorizesRequeue(run[k].audits[after.requeueAuditId.value], id)
  }

  /** A reconciliation found active after it was quarantined came back by an audited requeue. */
  lemma {:induction false} LeavingQuarantineIsAudited(run: seq<Tables>, id: string, i: nat, j: nat) returns (k: nat)
    requires IsRun(run) && Stays(run, id, i, j)
    requires run[i].recons[id].operational == Quarantined
    requires run[j].recons[id].operational == Active
    ensures i <= k < j
    ensures AuditedRequeue(run, id, k)
    decreases j - i
  {
    if run[j - 1].recons[id].operational == Quarantined {
      k := j - 1;
      ReconciliationAt(run, id, k);
      ReconciliationStep(run, id, k);
    } else {
      k := LeavingQuarantineIsAudited(run, id, i, j - 1);
    }
  }

  /** Hence a quarantined reconciliation only ever ends in PASSED or FAILED past such a requeue. */
  lemma TerminalOnlyPastRequeue(run: seq<Tables>, id: string, i: nat, j: nat)
    requires IsRun(run) && Stays(run, id, i, j)
    requires run[i].recons[id].operational == Quarantined
    requires run[j].recons[id].state != Pending
    ensures exists k: nat :: i <= k < j && AuditedRequeue(run, id, k)
  {
    ReconciliationAt(run, id, j);
    var k := LeavingQuarantineIsAudited(run, id, i, j);
  }

  /** Nothing but a requeue touches the requeue audit of a reconciliation. */
  lemma {:induction false} RequeueAuditSticks(run: seq<Tables>, id: string, i: nat, j: nat)
    requires IsRun(run) && Stays(run, id, i, j)
    requires forall k: nat | i <= k < j :: !AuditedRequeue(run, id, k)
    ensures run[j].recons[id].requeueAuditId == run[i].recons[id].requeueAuditId
    decreases j - i
  {
    if i < j {
      RequeueAuditSticks(run, id, i, j - 1);
      ReconciliationAt(run, id, j - 1);
      ReconciliationStep(run, id, j - 1);
      assert !AuditedRequeue(run, id, j - 1);
    }
  }

  /** Two requeues with none between them carry different audit rows. */
  lemma ConsecutiveRequeuesDiffer(run: seq<Tables>, id: string, k: nat, m: nat)
    requires IsRun(run) && k < m && Stays(run, id, k, m)
    requires AuditedRequeue(run, id, k) && AuditedRequeue(run, id, m)
    requires forall n: nat | k < n < m :: !AuditedRequeue(run, id, n)
    ensures run[k + 1].recons[id].requeueAuditId != run[m + 1].recons[id].requeueAuditId
  {
    RequeueAuditSticks(run, id, k + 1, m);
  }

  /** The reset that brings a quarantined reconciliation back to active. */
  function Requeued(r: Reconciliation, auditId: string): Reconciliation {
    r.(operational := Active, failureCount := 0, lastFailureAt := None, lastFailureCode := None,
       quarantinedAt := None, quarantineReason := None, requeueAuditId := Some(auditId))
  }

  function Quarantine(r: Reconciliation): Reconciliation {
    r.(operational := Quarantined, quarantinedAt := Some(r.updatedAt), quarantineReason := Some("QUARANTINED"))
  }

  /** A requeue is accepted exactly when its audit row authorizes it and is not the one of the requeue before. */
  lemma RequeueAcceptedIff(t: Tables, id: string, auditId: string)
    requires Consistent(t) && id in t.recons && t.recons[id].operational == Quarantined
    ensures Accepted(t, UpdateReconciliation(id, Requeued(t.recons[id], auditId))) <==>
      && auditId in t.audits && AuthorizesRequeue(t.audits[auditId], id)
      && t.recons[id].requeueAuditId != Some(auditId)
  {
    var r := Requeued(t.recons[id], auditId);
    assert t.recons[id].id == id && ReconciliationCheck(t.recons[id]);
    if auditId in t.audits {
      SameIdentityStaysConsistent(t, id, r);
    }
  }

  /** Quarantining a pending, active reconciliation is always accepted. */
  lemma QuarantineAccepted(t: Tables, id: string)
    requires Consistent(t) && id in t.recons && t.recons[id].operational == Active && t.recons[id].state == Pending
    ensures Accepted(t, UpdateReconciliation(id, Quarantine(t.recons[id])))
  {
    assert t.recons[id].id == id && ReconciliationCheck(t.recons[id]);
    SameIdentityStaysConsistent(t, id, Quarantine(t.recons[id]));
  }

  lemma SameIdentityStaysConsistent(t: Tables, id: string, r: Reconciliation)
    requires Consistent(t) && id in t.recons && r.id == id
    requires r.outboxId == t.recons[id].outboxId && r.providerId == t.recons[id].providerId
    requires ReconciliationCheck(r) && (r.requeueAuditId.Some? ==> r.requeueAuditId.value in t.audits)
    ensures Consistent(Effect(t, UpdateReconciliation(id, r)))
  {
    hide KeysMatch, RowChecks, UniqueReconciliations, UniqueInbox, UniqueEvidence, ForeignKeys;
    var u := t.(recons := t.recons[id := r]);
    assert Effect(t, UpdateReconciliation(id, r)) == u;
    SameIdentityKeepsKeys(t, id, r);
    SameIdentityKeepsUnique(t, id, r);
    SameIdentityKeepsForeignKeys(t, id, r);
  }

  lemma SameIdentityKeepsKeys(t: Tables, id: string, r: Reconciliation)
    requires KeysMatch(t) && RowChecks(t) && r.id == id && ReconciliationCheck(r)
    ensures KeysMatch(t.(recons := t.recons[id := r])) && RowChecks(t.(recons := t.recons[id := r]))
  {
    hide ReconciliationCheck, InboxCheck;
  }

  lemma SameIdentityKeepsUnique(t: Tables, id: string, r: Reconciliation)
    requires UniqueReconciliations(t) && UniqueInbox(t) && UniqueEvidence(t) && id in t.recons
    requires r.outboxId == t.recons[id].outboxId && r.providerId == t.recons[id].providerId
    ensures var u := t.(recons := t.recons[id := r]); UniqueReconciliations(u) && UniqueInbox(u) && UniqueEvidence(u)
  {
  }

  lemma SameIdentityKeepsForeignKeys(t: Tables, id: string, r: Reconciliation)
    requires ForeignKeys(t) && (r.requeueAuditId.Some? ==> r.requeueAuditId.value in t.audits)
    ensures ForeignKeys(t.(recons := t.recons[id := r]))
  {
  }

  /** Requeue number `k` of a run that quarantines after every requeue, and the audit row it uses. */
  ghost predicate TakesTurn(run: seq<Tables>, id: string, k: nat, auditId: string) {
    && AuditedRequeue(run, id, 2 * k)
    && run[2 * k + 1].recons[id].requeueAuditId == Some(auditId)
  }

  /**
   The guard looks back one requeue only. From any consistent tables with two authorizing
   audit rows there is a run of any length in which they take turns, each authorizing every
   other requeue.
   */
  lemma {:induction false} AuditsTakeTurns(t: Tables, id: string, first: string, second: string, n: nat)
      returns (run: seq<Tables>)
    requires Consistent(t) && id in t.recons && t.recons[id].operational == Quarantined
    requires first != second && first in t.audits && second in t.audits && t.recons[id].requeueAuditId != Some(first)
    requires AuthorizesRequeue(t.audits[first], id) && AuthorizesRequeue(t.audits[second], id)
    ensures IsRun(run) && |run| == 2 * n + 1 && run[0] == t
    ensures forall k: nat | k < n :: TakesTurn(run, id, k, if k % 2 == 0 then first else second)
    decreases n
  {
    hide Consistent, IsRun, TakesTurn, Next, AuditedRequeue, AuthorizesRequeue;
    if n == 0 {
      run := [t];
      StartsAlone(t);
    } else {
      var mid, after := RequeueAndQuarantine(t, id, first);
      var rest := AuditsTakeTurns(after, id, second, first, n - 1);
      run := [t, mid] + rest;
      RunInFront(t, mid, rest);
      FirstTurn(t, mid, rest, id, first);
      forall k: nat | k < n
        ensures TakesTurn(run, id, k, if k % 2 == 0 then first else second)
      {
        if k > 0 {
          var h: nat := k - 1;
          assert TakesTurn(rest, id, h, if h % 2 == 0 then second else first);
          LaterTurn(t, mid, rest, id, h, if h % 2 == 0 then second else first);
        }
      }
    }
  }

  lemma StartsAlone(t: Tables)
    requires Consistent(t)
    ensures IsRun([t])
  {
    hide Consistent;
  }

  lemma RunInFront(t: Tables, mid: Tables, rest: seq<Tables>)
    requires IsRun(rest) && Consistent(t) && Next(t, mid) && Next(mid, rest[0])
    ensures IsRun([t, mid] + rest)
  {
    hide Consistent, Next;
    var run := [t, mid] + rest;
    forall i | 0 <= i < |run| - 1
      ensures Next(run[i], run[i + 1])
    {
      if i > 1 {
        var h := i - 2;
        assert Next(rest[h], rest[h + 1]) && run[i] == rest[h] && run[i + 1] == rest[h + 1];
      }
    }
  }

  lemma FirstTurn(t: Tables, mid: Tables, rest: seq<Tables>, id: string, auditId: string)
    requires AuditedRequeue([t, mid], id, 0) && mid.recons[id].requeueAuditId == Some(auditId)
    ensures TakesTurn([t, mid] + rest, id, 0, auditId)
  {
  }

  lemma LaterTurn(t: Tables, mid: Tables, rest: seq<Tables>, id: string, k: nat, auditId: string)
    requires TakesTurn(rest, id, k, auditId)
    ensures TakesTurn([t, mid] + rest, id, k + 1, auditId)
  {
    var run := [t, mid] + rest;
    assert run[2 * (k + 1)] == rest[2 * k] && run[2 * (k + 1) + 1] == rest[2 * k + 1];
  }

  lemma RequeueAndQuarantine(t: Tables, id: string, auditId: string) returns (mid: Tables, after: Tables)
    requires Consistent(t) && id in t.recons && t.recons[id].operational == Quarantined
    requires auditId in t.audits && AuthorizesRequeue(t.audits[auditId], id)
    requires t.recons[id].requeueAuditId != Some(auditId)
    ensures Consistent(after) && Next(t, mid) && Next(mid, after) && mid.audits == after.audits == t.audits
    ensures AuditedRequeue([t, mid], id, 0) && mid.recons[id].requeueAuditId == Some(auditId)
    ensures id in after.recons && after.recons[id].operational == Quarantined
    ensures after.recons[id].requeueAuditId == Some(auditId)
  {
    hide Consistent, KeysMatch, RowChecks, UniqueReconciliations, UniqueInbox, UniqueEvidence, ForeignKeys;
    RequeueAcceptedIff(t, id, auditId);
    QuarantinedReconciliation(t, id);
    mid := Execute(t, UpdateReconciliation(id, Requeued(t.recons[id], auditId)));
    assert mid.recons[id] == Requeued(t.recons[id], auditId);
    QuarantineAccepted(mid, id);
    after := Execute(mid, UpdateReconciliation(id, Quarantine(mid.recons[id])));
    assert after.recons[id] == Quarantine(mid.recons[id]);
  }

  lemma QuarantinedReconciliation(t: Tables, id: string)
    requires Consistent(t) && id in t.recons
    ensures t.recons[id].id == id && ReconciliationCheck(t.recons[id])
  {
    hide ReconciliationCheck, UniqueReconciliations, UniqueInbox, UniqueEvidence, ForeignKeys;
  }

  // ----- inbox rows that were correlated out of quarantine -----

  /** Inbox row `q` is correlated to a reconciliation with its provider id, with evidence `e` for its key. */
  ghost predicate Linked(t: Tables, q: string, e: string) {
    && q in t.inbox
    && e in t.evidence
    && t.inbox[q].state == InboxCorrelated
    && t.inbox[q].reconciliationId == Some(t.evidence[e].reconciliationId)
    && t.evidence[e].reconciliationId in t.recons
    && t.recons[t.evidence[e].reconciliationId].providerId == t.inbox[q].providerId
    && t.evidence[e].inboxId == Some(q)
    && t.evidence[e].dedupKey == t.inbox[q].dedupKey
  }

  /** No statement at all breaks a link: each of the three rows is held by a guard of its own. */
  lemma LinkSurvivesStatement(t: Tables, c: Command, q: string, e: string)
    requires Permitted(t, c) && ForeignKeys(Effect(t, c))
    requires Linked(t, q, e)
    ensures Linked(Effect(t, c), q, e)
    ensures Effect(t, c).inbox[q] == t.inbox[q] && Effect(t, c).evidence[e] == t.evidence[e]
  {
    var u := Effect(t, c);
    var r := t.evidence[e].reconciliationId;
    assert e in u.evidence && u.evidence[e] == t.evidence[e];
    assert q in u.inbox && r in u.recons;
    if c.UpdateReconciliation? && c.key == r {
      assert LifecycleAllows(t.recons[r], c.recon);
    }
  }

  /** A row that leaves quarantine for CORRELATED is linked by that very statement. */
  lemma CorrelationLinks(t: Tables, c: Command, q: string) returns (e: string)
    requires Permitted(t, c) && KeysMatch(t)
    requires q in t.inbox && t.inbox[q].state == InboxQuarantined
    requires q in Effect(t, c).inbox && Effect(t, c).inbox[q].state == InboxCorrelated
    ensures Linked(Effect(t, c), q, e)
  {
    assert c.UpdateInbox? && c.key == q;
    assert ExactAcceptanceAllows(t, t.inbox[q], c.row);
    e :| e in t.evidence
      && t.evidence[e].inboxId == Some(q)
      && t.evidence[e].reconciliationId == c.row.reconciliationId.value
      && t.evidence[e].dedupKey == t.inbox[q].dedupKey;
  }

  function ToCorrelated(q: Inbox, reconciliationId: string, at: Instant): Inbox {
    q.(state := InboxCorrelated, reconciliationId := Some(reconciliationId), correlatedAt := Some(at),
       lastErrorCode := None, quarantinedAt := None, updatedAt := at)
  }

  /** Reconciliation, evidence and audit row that a correlation out of quarantine has to name. */
  predicate Vouched(t: Tables, q: Inbox, r: string) {
    && r in t.recons && t.recons[r].providerId == q.providerId
    && (exists e | e in t.evidence ::
          && t.evidence[e].inboxId == Some(q.id)
          && t.evidence[e].reconciliationId == r
          && t.evidence[e].dedupKey == q.dedupKey)
    && (exists a | a in t.audits :: RecordsExactAcceptance(t.audits[a], q.id, r))
  }

  /**
   A quarantined row is correlated exactly when all three vouch for it and it was parked because
   no reconciliation was found, or says nothing about why it was parked.
   */
  lemma CorrelationAcceptedIff(t: Tables, q: string, r: string, at: Instant)
    requires Consistent(t) && q in t.inbox && t.inbox[q].state == InboxQuarantined
    ensures Accepted(t, UpdateInbox(q, ToCorrelated(t.inbox[q], r, at))) <==>
      && (t.inbox[q].lastErrorCode.None? || t.inbox[q].lastErrorCode == Some(NOT_FOUND))
      && Vouched(t, t.inbox[q], r)
  {
    hide Consistent, KeysMatch, RowChecks, UniqueReconciliations, UniqueInbox, UniqueEvidence, ForeignKeys;
    hide RecordsExactAcceptance, AuthorizesInboxRequeue;
    var row := ToCorrelated(t.inbox[q], r, at);
    QuarantinedRow(t, q);
    if r in t.recons {
      SameCallbackStaysConsistent(t, q, row);
    }
  }

  lemma QuarantinedRow(t: Tables, q: string)
    requires Consistent(t) && q in t.inbox
    ensures t.inbox[q].id == q && InboxCheck(t.inbox[q])
  {
    hide InboxCheck, UniqueReconciliations, UniqueInbox, UniqueEvidence, ForeignKeys;
  }

  lemma SameCallbackStaysConsistent(t: Tables, q: string, row: Inbox)
    requires Consistent(t) && q in t.inbox && row.id == q && InboxCheck(row)
    requires row.providerId == t.inbox[q].providerId && row.dedupKey == t.inbox[q].dedupKey && row.claim.None?
    requires row.reconciliationId.Some? ==> row.reconciliationId.value in t.recons
    requires row.requeueAuditId == t.inbox[q].requeueAuditId
    ensures Consistent(Effect(t, UpdateInbox(q, row)))
  {
    hide KeysMatch, RowChecks, UniqueReconciliations, UniqueInbox, UniqueEvidence, ForeignKeys, InboxCheck;
    var u := t.(inbox := t.inbox[q := row]);
    assert Effect(t, UpdateInbox(q, row)) == u;
    SameCallbackKeepsRows(t, q, row);
    SameCallbackKeepsUnique(t, q, row);
    SameCallbackKeepsForeignKeys(t, q, row);
  }

  lemma SameCallbackKeepsRows(t: Tables, q: string, row: Inbox)
    requires KeysMatch(t) && RowChecks(t) && row.id == q && InboxCheck(row)
    ensures KeysMatch(t.(inbox := t.inbox[q := row])) && RowChecks(t.(inbox := t.inbox[q := row]))
  {
    hide InboxCheck, ReconciliationCheck;
  }

  lemma SameCallbackKeepsUnique(t: Tables, q: string, row: Inbox)
    requires UniqueReconciliations(t) && UniqueInbox(t) && UniqueEvidence(t) && q in t.inbox && row.claim.None?
    requires row.providerId == t.inbox[q].providerId && row.dedupKey == t.inbox[q].dedupKey
    ensures var u := t.(inbox := t.inbox[q := row]); UniqueReconciliations(u) && UniqueInbox(u) && UniqueEvidence(u)
  {
  }

  lemma SameCallbackKeepsForeignKeys(t: Tables, q: string, row: Inbox)
    requires ForeignKeys(t) && q in t.inbox && row.requeueAuditId == t.inbox[q].requeueAuditId
    requires row.reconciliationId.Some? ==> row.reconciliationId.value in t.recons
    ensures ForeignKeys(t.(inbox := t.inbox[q := row]))
  {
  }

  lemma CorrelationStep(run: seq<Tables>, q: string, k: nat) returns (e: string)
    requires IsRun(run) && k + 1 < |run|
    requires q in run[k].inbox && run[k].inbox[q].state == InboxQuarantined
    requires q in run[k + 1].inbox && run[k + 1].inbox[q].state == InboxCorrelated
    ensures Linked(run[k + 1], q, e)
  {
    KeysMatchAt(run, k);
    var t, u := run[k], run[k + 1];
    assert Next(t, u);
    var c :| u == Execute(t, c);
    if Accepted(t, c) {
      e := CorrelationLinks(t, c, q);
    }
  }

  lemma LinkStep(run: seq<Tables>, q: string, e: string, k: nat)
    requires IsRun(run) && k + 1 < |run|
    requires Linked(run[k], q, e)
    ensures Linked(run[k + 1], q, e)
    ensures run[k + 1].inbox[q] == run[k].inbox[q]
  {
    var t, u := run[k], run[k + 1];
    assert Next(t, u);
    var c :| u == Execute(t, c);
    if Accepted(t, c) {
      LinkSurvivesStatement(t, c, q, e);
    }
  }

  lemma {:induction false} LinkSurvivesRun(run: seq<Tables>, q: string, e: string, i: nat, j: nat)
    requires IsRun(run) && i <= j < |run|
    requires Linked(run[i], q, e)
    ensures Linked(run[j], q, e)
    ensures run[j].inbox[q] == run[i].inbox[q]
    decreases j - i
  {
    if i < j {
      LinkSurvivesRun(run, q, e, i, j - 1);
      LinkStep(run, q, e, j - 1);
    }
  }

  /**
   An inbox row correlated out of quarantine is there unchanged in every later state, with
   a reconciliation of its provider id and an evidence row of its deduplication key.
   */
  lemma CorrelatedStaysLinked(run: seq<Tables>, q: string, k: nat, j: nat)
    requires IsRun(run) && k + 1 <= j < |run|
    requires q in run[k].inbox && run[k].inbox[q].state == InboxQuarantined
    requires q in run[k + 1].inbox && run[k + 1].inbox[q].state == InboxCorrelated
    ensures q in run[j].inbox && run[j].inbox[q] == run[k + 1].inbox[q]
    ensures exists e :: Linked(run[j], q, e)
  {
    var e := CorrelationStep(run, q, k);
    LinkSurvivesRun(run, q, e, k + 1, j);
  }
}
