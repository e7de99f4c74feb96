/**
 What the recovery of accepted attempts in migration 0030 demands of an attempt and what it writes
 for one, column by column.
 */
module AttemptColumns {
  import opened Common
  import opened MetaTables
  import opened AttemptRecovery

  // ----- what is written -----

  /** The six authority rows of a spending at the start. */
  ghost predicate RowsAtStart(l0: Ledger, g: Graph) {
    && g.agent.id in l0.agents && l0.agents[g.agent.id] == g.agent
    && g.consumption.id in l0.consumptions && l0.consumptions[g.consumption.id] == g.consumption
    && g.lease.id in l0.leases && l0.leases[g.lease.id] == g.lease
    && g.budget.id in l0.budgets && l0.budgets[g.budget.id] == g.budget
    && g.bounded.id in l0.bounded && l0.bounded[g.bounded.id] == g.bounded
    && g.human.id in l0.humans && l0.humans[g.human.id] == g.human
  }

  /** And at the end: each is what it was, but for the columns that say it is spent and since when. */
  ghost predicate RowsAtEnd(l: Ledger, g: Graph, at: Instant) {
    && g.agent.id in l.agents
    && l.agents[g.agent.id] == g.agent.(executionAllowed := true, deliveryAllowed := true, executedAt := Some(at))
    && g.consumption.id in l.consumptions
    && l.consumptions[g.consumption.id] == g.consumption.(state := "CONSUMED", consumedAt := Some(at))
    && g.lease.id in l.leases
    && l.leases[g.lease.id]
         == g.lease.(status := "CONSUMED", consumedAt := Some(at), version := g.lease.version + 1, updatedAt := at)
    && g.budget.id in l.budgets
    && l.budgets[g.budget.id]
         == g.budget.(status := "CONSUMED", reserved := 0, consumed := 1, version := g.budget.version + 1,
           updatedAt := at)
    && g.bounded.id in l.bounded
    && l.bounded[g.bounded.id] == g.bounded.(status := "CONSUMED", updatedAt := at)
    && g.human.id in l.humans
    && l.humans[g.human.id] == g.human.(state := "CONSUMED", updatedAt := at)
  }

  /** A week and thirty seconds for callbacks, and the columns that a new reconciliation starts with. */
  ghost predicate OpenedAtEnd(w: World, l0: Ledger, l: Ledger, s: Spending) {
    && s.attempt in w.attempts && w.attempts[s.attempt].interactionId in w.tenants
    && s.reconId !in l0.recons && s.reconId in l.recons
    && var a, r := w.attempts[s.attempt], l.recons[s.reconId];
    && r.id == s.reconId && r.outboxId == s.attempt && Some(r.providerId) == a.providerId
    && r.tenantId == w.tenants[a.interactionId]
    && r.acceptedAt == s.at && r.createdAt == s.at && r.updatedAt == s.at
    && r.deadlineAt == s.at + 604800 && r.closureAfter == s.at + 604830 && r.nextReconcileAt == s.at + 604830
    && r.state == Pending && r.operational == Active && r.evidenceCount == 0 && r.failureCount == 0
    && r.terminalReason.None? && r.terminalAt.None? && r.lastReconciledAt.None? && r.lastFailureAt.None?
    && r.lastFailureCode.None? && r.quarantinedAt.None? && r.quarantineReason.None? && r.requeueAuditId.None?
  }

  /** Every column that recovering an attempt writes, for each attempt of a finished recovery. */
  lemma SpentColumns(w: World, l0: Ledger, l: Ledger, spent: seq<Spending>, f: Scope -> string, i: nat)
    requires Recovered(w, l0, l, spent, f) && i < |spent|
    ensures RowsAtStart(l0, spent[i].graph)
    ensures RowsAtEnd(l, spent[i].graph, spent[i].at)
    ensures OpenedAtEnd(w, l0, l, spent[i])
  {
    hide Warranted, Orphan, UniqueOpened, OpenedFor, SpentFrom;
    SpentRow(l0.agents, l.agents, spent, AgentChange, i);
    SpentRow(l0.consumptions, l.consumptions, spent, ConsumptionChange, i);
    SpentRow(l0.leases, l.leases, spent, LeaseChange, i);
    SpentRow(l0.budgets, l.budgets, spent, BudgetChange, i);
    SpentRow(l0.bounded, l.bounded, spent, BoundedChange, i);
    SpentRow(l0.humans, l.humans, spent, HumanChange, i);
    ReconciliationOpened(w, l0, l, spent, i);
  }

  lemma SpentRow<R(!new)>(t0: map<string, R>, t: map<string, R>, spent: seq<Spending>, change: Spending -> Change<R>,
        i: nat)
    requires SpentFrom(t0, t, spent, change) && i < |spent|
    ensures change(spent[i]).id in t0 && t0[change(spent[i]).id] == change(spent[i]).before
    ensures change(spent[i]).id in t && t[change(spent[i]).id] == change(spent[i]).after
  {
  }

  lemma ReconciliationOpened(w: World, l0: Ledger, l: Ledger, spent: seq<Spending>, i: nat)
    requires OpenedFor(w, l0.recons, l.recons, spent) && i < |spent|
    ensures OpenedAtEnd(w, l0, l, spent[i])
  {
    assert OpenedBy(w, l0.recons, l.recons, spent[i]);
  }

  /** A row that changed is one of a spending, and no table gains or loses a row but that of reconciliations. */
  lemma NothingElseIsWritten(w: World, l0: Ledger, l: Ledger, spent: seq<Spending>, f: Scope -> string)
    requires Recovered(w, l0, l, spent, f)
    ensures l.agents.Keys == l0.agents.Keys && l.consumptions.Keys == l0.consumptions.Keys
    ensures l.leases.Keys == l0.leases.Keys && l.budgets.Keys == l0.budgets.Keys
    ensures l.bounded.Keys == l0.bounded.Keys && l.humans.Keys == l0.humans.Keys
    ensures forall k | k in l0.agents && l.agents[k] != l0.agents[k] :: exists s :: s in spent && s.graph.agent.id == k
    ensures forall k | k in l0.consumptions && l.consumptions[k] != l0.consumptions[k] ::
      exists s :: s in spent && s.graph.consumption.id == k
    ensures forall k | k in l0.leases && l.leases[k] != l0.leases[k] :: exists s :: s in spent && s.graph.lease.id == k
    ensures forall k | k in l0.budgets && l.budgets[k] != l0.budgets[k] ::
      exists s :: s in spent && s.graph.budget.id == k
    ensures forall k | k in l0.bounded && l.bounded[k] != l0.bounded[k] ::
      exists s :: s in spent && s.graph.bounded.id == k
    ensures forall k | k in l0.humans && l.humans[k] != l0.humans[k] :: exists s :: s in spent && s.graph.human.id == k
    ensures forall k | k in l0.recons :: k in l.recons && l.recons[k] == l0.recons[k]
    ensures forall k | k in l.recons && k !in l0.recons :: exists s :: s in spent && s.reconId == k
  {
    hide Warranted, Orphan, UniqueOpened, SpentFrom, OpenedBy;
    OnlySpent(l0.agents, l.agents, spent, AgentChange);
    OnlySpent(l0.consumptions, l.consumptions, spent, ConsumptionChange);
    OnlySpent(l0.leases, l.leases, spent, LeaseChange);
    OnlySpent(l0.budgets, l.budgets, spent, BudgetChange);
    OnlySpent(l0.bounded, l.bounded, spent, BoundedChange);
    OnlySpent(l0.humans, l.humans, spent, HumanChange);
  }

  lemma OnlySpent<R(!new)>(t0: map<string, R>, t: map<string, R>, spent: seq<Spending>, change: Spending -> Change<R>)
    requires SpentFrom(t0, t, spent, change)
    ensures t.Keys == t0.Keys
    ensures forall k | k in t0 && t[k] != t0[k] :: exists s :: s in spent && change(s).id == k
  {
    forall k | k in t0 && t[k] != t0[k]
      ensures exists s :: s in spent && change(s).id == k
    {
      var i :| 0 <= i < |spent| && change(spent[i]).id == k;
      assert spent[i] in spent;
    }
  }

  // ----- what is demanded -----

  /** The attempts that wait for delivery at the provider, and belong to a known interaction. */
  ghost predicate AwaitsDelivery(w: World, o: string) {
    && o in w.attempts && w.attempts[o].interactionId in w.tenants
    && w.attempts[o].destination == "meta_whatsapp_cloud"
    && w.attempts[o].actionType == "production_conversation_reply"
    && w.attempts[o].status == "AWAITING_DELIVERY"
  }

  /** A finished recovery leaves none of them without a reconciliation, and had none with one to recover. */
  lemma AwaitedIsReconciled(w: World, l0: Ledger, l: Ledger, spent: seq<Spending>, f: Scope -> string, o: string)
    requires Recovered(w, l0, l, spent, f) && AwaitsDelivery(w, o)
    requires forall p | Orphan(w, l0.recons, p) :: exists i :: 0 <= i < |spent| && spent[i].attempt == p
    ensures exists r :: r in l.recons && l.recons[r].outboxId == o
    ensures (exists s :: s in spent && s.attempt == o) <==> forall r | r in l0.recons :: l0.recons[r].outboxId != o
  {
    hide Warranted, AuthoritySpent, UniqueOpened;
    if r :| r in l0.recons && l0.recons[r].outboxId == o {
      assert r in l.recons && l.recons[r] == l0.recons[r];
      forall s | s in spent
        ensures s.attempt != o
      {
        var i :| 0 <= i < |spent| && spent[i] == s;
        assert Orphan(w, l0.recons, spent[i].attempt);
      }
    } else {
      assert Orphan(w, l0.recons, o);
      var i :| 0 <= i < |spent| && spent[i].attempt == o;
      assert spent[i] in spent;
      assert OpenedBy(w, l0.recons, l.recons, spent[i]);
    }
  }

  /** The attempt was made once, under one provider id, by an agent, for a human authorization, by a claimant. */
  ghost predicate MadeOnce(a: Attempt) {
    && a.providerId.Some? && 1 <= |a.providerId.value| < 256
    && a.retryPolicy == Some("NONE") && a.attemptCount == 1
    && a.agentId.Some? && |a.agentId.value| > 0
    && a.causationId.Some? && |a.causationId.value| > 0
    && a.claimedBy.Some? && |a.claimedBy.value| > 0
  }

  ghost predicate AcceptanceOf(w: World, a: Attempt, tenant: string, e: string) {
    && e in w.acceptances && a.providerId.Some?
    && w.acceptances[e] == Acceptance("production_meta_api_accepted", Some(a.interactionId), tenant, a.correlationId,
         a.causationId, Some(a.id), a.providerId, w.acceptances[e].createdAt)
  }

  ghost predicate OneAcceptance(w: World, a: Attempt, tenant: string) {
    exists e ::
      && AcceptanceOf(w, a, tenant, e) && a.createdAt <= w.acceptances[e].createdAt
      && forall d | AcceptanceOf(w, a, tenant, d) :: d == e
  }

  /** One row of the authority join: the rows that the columns of the attempt and of each other name. */
  ghost predicate JoinRow(w: World, l: Ledger, a: Attempt, k: Key) {
    && a.agentId.Some? && a.agentId.value in l.agents && a.causationId.Some? && a.causationId.value in l.humans
    && var agent := l.agents[a.agentId.value];
    && agent.intentId.Some? && agent.intentId.value in w.intents
    && agent.decisionId in w.decisions && w.decisions[agent.decisionId] in w.tenants
    && k.run in w.runs && w.runs[k.run].agentId == a.agentId
    && k.consumption in l.consumptions && l.consumptions[k.consumption].outboxId == Some(a.id)
    && l.consumptions[k.consumption].leaseId in l.leases && l.consumptions[k.consumption].budgetId in l.budgets
    && k.bounded in l.bounded && l.bounded[k.bounded].runId == k.run
    && l.bounded[k.bounded].budgetId == l.consumptions[k.consumption].budgetId
  }

  /** The graph of such a row holds the rows it names. */
  ghost predicate IsGraphOf(w: World, l: Ledger, a: Attempt, k: Key, g: Graph) {
    && JoinRow(w, l, a, k)
    && g.agent == l.agents[a.agentId.value] && g.human == l.humans[a.causationId.value]
    && g.intent == w.intents[g.agent.intentId.value]
    && g.decisionInteraction == w.decisions[g.agent.decisionId] && g.tenantId == w.tenants[g.decisionInteraction]
    && g.run == w.runs[k.run] && g.consumption == l.consumptions[k.consumption] && g.bounded == l.bounded[k.bounded]
    && g.lease == l.leases[g.consumption.leaseId] && g.budget == l.budgets[g.consumption.budgetId]
  }

  /**
   A graph that can be recovered, row by row: the ids are given, and every other column that the
   recovery reads is the one they call for.
   */
  ghost predicate ReservedFor(a: Attempt, tenant: string, g: Graph, f: Scope -> string) {
    var effect, to := "execution:" + g.agent.id, g.bounded.target;
    && g.tenantId == tenant && g.decisionInteraction == a.interactionId && a.idempotencyKey == effect
    && a.correlationId == Some(g.run.rootCorrelationId)
    && g.intent.state == "MATERIALIZED" && f(g.intent.scope) == g.intent.fingerprint
    && g.intent.scope.target == Target(Some(tenant), Some("meta_whatsapp"))
    && g.intent.scope.frozen == Frozen(Some("meta_whatsapp"), Some("conversation.reply"), Some("conversation.reply"),
         Some(1), Some(1), Some(0))
    && g.agent == Agent(g.agent.id, g.agent.intentId, g.agent.decisionId, "PRODUCTION_EXECUTION_INTENT",
         Some("conversation.reply"), g.agent.idempotencyKey, Some(to), "QUEUED", false, false, None,
         Some(g.intent.fingerprint))
    && g.run == Run(g.run.id, tenant, Some(g.agent.id), Some(g.budget.id), g.run.rootCorrelationId, "RUNNING")
    && g.consumption == Consumption(g.consumption.id, tenant, g.budget.id, g.lease.id, Some(g.agent.id), Some(a.id),
         effect, effect, to, "RESERVED", g.consumption.consumedAt)
    && g.lease == Lease(g.lease.id, tenant, Some(g.run.id), Some(g.budget.id), Some(g.agent.idempotencyKey),
         Some(g.agent.id), "CLAIMED", g.lease.consumedAt, g.lease.version, g.lease.updatedAt)
    && g.budget == Budget(g.budget.id, tenant, g.run.id, "RESERVED", 1, 0, g.budget.stimulusLimit,
         g.budget.systemLimit, g.budget.version, g.budget.updatedAt)
    && g.bounded == Bounded(g.bounded.id, tenant, g.run.id, g.budget.id, "human-approval:" + g.human.id, to,
         "conversation.reply", "WHATSAPP_TEXT", 1, "ACTIVE", g.bounded.updatedAt)
    && g.human == Human(g.human.id, g.intent.id, g.intent.fingerprint, "APPROVED", g.human.updatedAt)
  }

  lemma ReservedForIff(a: Attempt, tenant: string, g: Graph, f: Scope -> string)
    ensures ExactGraph(a, tenant, g, f) && Reserved(g) <==> ReservedFor(a, tenant, g, f)
  {
  }

  /** When an attempt can be recovered from a ledger. */
  lemma ClearsIff(w: World, l: Ledger, o: string, k: Key, f: Scope -> string, stableId: (string, string) -> string)
    ensures Clears(w, l, o, k, f, stableId) <==>
      && AwaitsDelivery(w, o)
      && var a := w.attempts[o];
      && MadeOnce(a) && OneAcceptance(w, a, w.tenants[a.interactionId])
      && (forall r | r in l.recons :: Some(l.recons[r].providerId) != a.providerId)
      && JoinRow(w, l, a, k) && (forall m | JoinRow(w, l, a, m) :: m == k)
      && (exists g :: IsGraphOf(w, l, a, k, g) && ReservedFor(a, w.tenants[a.interactionId], g, f))
      && stableId("metarecon", o) !in l.recons
  {
    hide ExactGraph, Reserved, ReservedFor, Joins, JoinRow, OneAcceptance, AcceptedAt, Joined, IsGraphOf, OnlyJoin;
    hide ExactAttempt, MadeOnce;
    if AwaitsDelivery(w, o) {
      var a := w.attempts[o];
      MadeOnceIff(a);
      var tenant := w.tenants[a.interactionId];
      OneAcceptanceIff(w, a, tenant);
      OnlyJoinIff(w, l, a, k);
      GraphNeedsJoin(w, l, a, k);
      if JoinRow(w, l, a, k) {
        GraphColumns(w, l, a, k);
        assert IsGraphOf(w, l, a, k, GraphOf(w, l, a, k));
        ReservedForIff(a, tenant, GraphOf(w, l, a, k), f);
      }
    }
  }

  lemma MadeOnceIff(a: Attempt)
    ensures MadeOnce(a) <==> ExactAttempt(a)
    ensures MadeOnce(a) ==> a.providerId.Some?
  {
  }

  lemma GraphNeedsJoin(w: World, l: Ledger, a: Attempt, k: Key)
    ensures JoinRow(w, l, a, k) <==> Joins(w, l, a, k.run, k.consumption, k.bounded)
  {
  }

  lemma OnlyJoinIff(w: World, l: Ledger, a: Attempt, k: Key)
    ensures OnlyJoin(w, l, a, k) <==> JoinRow(w, l, a, k) && forall m | JoinRow(w, l, a, m) :: m == k
  {
    hide Joins, JoinRow;
    forall m: Key
      ensures JoinRow(w, l, a, m) <==> Joins(w, l, a, m.run, m.consumption, m.bounded)
    {
      GraphNeedsJoin(w, l, a, m);
    }
    if JoinRow(w, l, a, k) && forall m | JoinRow(w, l, a, m) :: m == k {
      forall r, c, b | Joins(w, l, a, r, c, b)
        ensures Key(r, c, b) == k
      {
        assert JoinRow(w, l, a, Key(r, c, b));
      }
    }
  }

  lemma GraphColumns(w: World, l: Ledger, a: Attempt, k: Key)
    requires JoinRow(w, l, a, k) && Joins(w, l, a, k.run, k.consumption, k.bounded)
    ensures forall g :: IsGraphOf(w, l, a, k, g) <==> g == GraphOf(w, l, a, k)
  {
  }

  lemma OneAcceptanceIff(w: World, a: Attempt, tenant: string)
    ensures OneAcceptance(w, a, tenant) <==> exists at :: AcceptedAt(w, a, tenant, at)
  {
    forall e | e in w.acceptances
      ensures Accepts(w.acceptances[e], a, tenant) <==> AcceptanceOf(w, a, tenant, e)
    {
    }
    if OneAcceptance(w, a, tenant) {
      var e :| && AcceptanceOf(w, a, tenant, e) && a.createdAt <= w.acceptances[e].createdAt
               && forall d | AcceptanceOf(w, a, tenant, d) :: d == e;
      assert AcceptedAt(w, a, tenant, w.acceptances[e].createdAt);
    }
    if at :| AcceptedAt(w, a, tenant, at) {
      var e :| e in w.acceptances && Accepts(w.acceptances[e], a, tenant) && w.acceptances[e].createdAt == at;
      assert AcceptanceOf(w, a, tenant, e);
    }
  }
}
