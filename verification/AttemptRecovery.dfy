/**
 The first step of migration 0030: an outbox attempt that the provider accepted but that
 has no reconciliation gets one, and the authority it had reserved is spent. The rows of
 the authority graph are joined anew for every attempt, so an attempt that reaches a
 budget, lease or authorization which an earlier one spent finds it consumed and blocks.
 */
module AttemptRecovery {
  import opened Common
  import opened MetaTables

  const WINDOW_SECONDS := 604800
  const GRACE_SECONDS := 30

  datatype Attempt = Attempt(
    id: string,
    interactionId: string,
    agentId: Option<string>,
    causationId: Option<string>,
    correlationId: Option<string>,
    claimedBy: Option<string>,
    attemptCount: int,
    createdAt: Instant,
    destination: string,
    actionType: string,
    status: string,
    idempotencyKey: string,
    providerId: Option<string>,
    retryPolicy: Option<string>)

  datatype Target = Target(tenant: Option<string>, transport: Option<string>)

  datatype Frozen = Frozen(
    transport: Option<string>,
    operation: Option<string>,
    capability: Option<string>,
    outboundMessages: Option<int>,
    actionCount: Option<int>,
    retries: Option<int>)

  /** The members of a frozen scope that recovery reads, and the rest of its text. */
  datatype Scope = Scope(target: Target, frozen: Frozen, rest: string)

  datatype Intent = Intent(id: string, state: string, fingerprint: string, scope: Scope)

  datatype Run = Run(
    id: string, tenantId: string, agentId: Option<string>, budgetId: Option<string>,
    rootCorrelationId: string, status: string)

  datatype Acceptance = Acceptance(
    eventType: string, interactionId: Option<string>, tenantId: string, correlationId: Option<string>,
    causationId: Option<string>, outboxId: Option<string>, providerId: Option<string>, createdAt: Instant)

  datatype Agent = Agent(
    id: string, intentId: Option<string>, decisionId: string, authorizationSource: string,
    capability: Option<string>, idempotencyKey: string, recipient: Option<string>, status: string,
    executionAllowed: bool, deliveryAllowed: bool, executedAt: Option<Instant>, fingerprint: Option<string>)

  datatype Consumption = Consumption(
    id: string, tenantId: string, budgetId: string, leaseId: string, agentId: Option<string>,
    outboxId: Option<string>, logicalEffectId: string, idempotencyKey: string, target: string,
    state: string, consumedAt: Option<Instant>)

  datatype Lease = Lease(
    id: string, tenantId: string, runId: Option<string>, budgetId: Option<string>,
    logicalExecutionId: Option<string>, claimantId: Option<string>, status: string,
    consumedAt: Option<Instant>, version: int, updatedAt: Instant)

  datatype Budget = Budget(
    id: string, tenantId: string, runId: string, status: string, reserved: int, consumed: int,
    stimulusLimit: int, systemLimit: int, version: int, updatedAt: Instant)

  datatype Bounded = Bounded(
    id: string, tenantId: string, runId: string, budgetId: string, actorScope: string, target: string,
    capability: string, effect: string, maxEffects: int, status: string, updatedAt: Instant)

  datatype Human = Human(id: string, intentId: string, fingerprint: string, state: string, updatedAt: Instant)

  /** The tables recovery only reads. */
  datatype World = World(
    attempts: map<string, Attempt>,
    tenants: map<string, string>,        // interaction id to tenant
    intents: map<string, Intent>,
    decisions: map<string, string>,      // agent decision id to interaction id
    runs: map<string, Run>,
    acceptances: map<string, Acceptance>)

  /** The tables it writes. */
  datatype Ledger = Ledger(
    agents: map<string, Agent>,
    consumptions: map<string, Consumption>,
    leases: map<string, Lease>,
    budgets: map<string, Budget>,
    bounded: map<string, Bounded>,
    humans: map<string, Human>,
    recons: map<string, Reconciliation>)

  /** One row of the authority join. */
  datatype Graph = Graph(
    agent: Agent, intent: Intent, decisionInteraction: string, tenantId: string, run: Run,
    consumption: Consumption, lease: Lease, budget: Budget, bounded: Bounded, human: Human)

  // ----- the queries -----

  predicate Accepted(w: World, o: string) {
    && o in w.attempts
    && w.attempts[o].destination == "meta_whatsapp_cloud"
    && w.attempts[o].actionType == "production_conversation_reply"
    && w.attempts[o].status == "AWAITING_DELIVERY"
    && w.attempts[o].interactionId in w.tenants
  }

  predicate Orphan(w: World, recons: map<string, Reconciliation>, o: string) {
    Accepted(w, o) && forall r | r in recons :: recons[r].outboxId != o
  }

  predicate ExactAttempt(a: Attempt) {
    && a.providerId.Some? && 0 < |a.providerId.value| <= 255
    && a.retryPolicy == Some("NONE")
    && a.attemptCount == 1
    && a.agentId.Some? && a.agentId.value != ""
    && a.causationId.Some? && a.causationId.value != ""
    && a.claimedBy.Some? && a.claimedBy.value != ""
  }

  predicate Accepts(e: Acceptance, a: Attempt, tenantId: string) {
    && e.eventType == "production_meta_api_accepted"
    && e.interactionId == Some(a.interactionId)
    && e.tenantId == tenantId
    && e.correlationId == a.correlationId
    && e.causationId == a.causationId
    && e.outboxId == Some(a.id)
    && e.providerId.Some? && e.providerId == a.providerId
  }

  /** The join on one attempt, for a choice of the rows that its foreign keys do not determine. */
  predicate Joins(w: World, l: Ledger, a: Attempt, run: string, consumption: string, bounded: string) {
    && run in w.runs && consumption in l.consumptions && bounded in l.bounded
    && a.agentId.Some? && a.agentId.value in l.agents
    && a.causationId.Some? && a.causationId.value in l.humans
    && w.runs[run].agentId == a.agentId
    && l.consumptions[consumption].outboxId == Some(a.id)
    && l.consumptions[consumption].leaseId in l.leases
    && l.consumptions[consumption].budgetId in l.budgets
    && l.bounded[bounded].runId == run
    && l.bounded[bounded].budgetId == l.consumptions[consumption].budgetId
    && var agent := l.agents[a.agentId.value];
    && agent.intentId.Some? && agent.intentId.value in w.intents
    && agent.decisionId in w.decisions
    && w.decisions[agent.decisionId] in w.tenants
  }

  function Joined(w: World, l: Ledger, a: Attempt, run: string, consumption: string, bounded: string): Graph
    requires Joins(w, l, a, run, consumption, bounded)
  {
    var agent := l.agents[a.agentId.value];
    var interaction := w.decisions[agent.decisionId];
    var c := l.consumptions[consumption];
    Graph(agent, w.intents[agent.intentId.value], interaction, w.tenants[interaction], w.runs[run],
          c, l.leases[c.leaseId], l.budgets[c.budgetId], l.bounded[bounded], l.humans[a.causationId.value])
  }

  /** Every identity in the graph agrees with every other and with the frozen scope. */
  predicate ExactGraph(a: Attempt, tenantId: string, g: Graph, fingerprintOf: Scope -> string) {
    var effect := "execution:" + g.agent.id;
    var target, frozen := g.intent.scope.target, g.intent.scope.frozen;
    && g.tenantId == tenantId
    && g.decisionInteraction == a.interactionId
    && g.intent.state == "MATERIALIZED"
    && g.agent.fingerprint == Some(g.intent.fingerprint)
    && g.human.intentId == g.intent.id
    && g.human.fingerprint == g.intent.fingerprint
    && g.agent.authorizationSource == "PRODUCTION_EXECUTION_INTENT"
    && g.agent.capability == Some("conversation.reply")
    && a.idempotencyKey == effect
    && a.correlationId == Some(g.run.rootCorrelationId)
    && g.run.agentId == Some(g.agent.id)
    && g.run.budgetId == Some(g.budget.id)
    && g.budget.runId == g.run.id
    && g.lease.runId == Some(g.run.id)
    && g.lease.budgetId == Some(g.budget.id)
    && g.lease.logicalExecutionId == Some(g.agent.idempotencyKey)
    && g.lease.claimantId == Some(g.agent.id)
    && g.consumption.budgetId == g.budget.id
    && g.consumption.leaseId == g.lease.id
    && g.consumption.agentId == Some(g.agent.id)
    && g.consumption.outboxId == Some(a.id)
    && g.consumption.logicalEffectId == effect
    && g.consumption.idempotencyKey == effect
    && g.agent.recipient == Some(g.consumption.target)
    && g.bounded.runId == g.run.id
    && g.bounded.budgetId == g.budget.id
    && g.bounded.actorScope == "human-approval:" + g.human.id
    && g.agent.recipient == Some(g.bounded.target)
    && g.bounded.capability == "conversation.reply"
    && g.bounded.effect == "WHATSAPP_TEXT"
    && g.bounded.maxEffects == 1
    && fingerprintOf(g.intent.scope) == g.intent.fingerprint
    && target.tenant == Some(tenantId)
    && target.transport == Some("meta_whatsapp")
    && frozen.transport == Some("meta_whatsapp")
    && frozen.operation == Some("conversation.reply")
    && frozen.capability == Some("conversation.reply")
    && frozen.outboundMessages == Some(1)
    && frozen.actionCount == Some(1)
    && frozen.retries == Some(0)
    && g.run.tenantId == tenantId
    && g.budget.tenantId == tenantId
    && g.lease.tenantId == tenantId
    && g.consumption.tenantId == tenantId
    && g.bounded.tenantId == tenantId
  }

  /** The authority is still held in reserve, and nothing was delivered. */
  predicate Reserved(g: Graph) {
    && g.human.state == "APPROVED"
    && g.bounded.status == "ACTIVE"
    && g.lease.status == "CLAIMED"
    && g.consumption.state == "RESERVED"
    && g.budget.status == "RESERVED"
    && g.budget.reserved == 1
    && g.budget.consumed == 0
    && g.agent.status == "QUEUED"
    && g.run.status == "RUNNING"
    && !g.agent.executionAllowed
    && !g.agent.deliveryAllowed
    && g.agent.executedAt.None?
  }

  // ----- what is written -----

  function SpentConsumption(c: Consumption, at: Instant): Consumption {
    c.(state := "CONSUMED", consumedAt := Some(at))
  }

  function SpentLease(l: Lease, at: Instant): Lease {
    l.(status := "CONSUMED", consumedAt := Some(at), version := l.version + 1, updatedAt := at)
  }

  function SpentBudget(b: Budget, at: Instant): Budget {
    b.(status := "CONSUMED", reserved := 0, consumed := 1, version := b.version + 1, updatedAt := at)
  }

  function SpentHuman(h: Human, at: Instant): Human {
    h.(state := "CONSUMED", updatedAt := at)
  }

  function SpentBounded(b: Bounded, at: Instant): Bounded {
    b.(status := "CONSUMED", updatedAt := at)
  }

  function Executed(a: Agent, at: Instant): Agent {
    a.(executionAllowed := true, deliveryAllowed := true, executedAt := Some(at))
  }

  function Opened(id: string, a: Attempt, tenantId: string, at: Instant): Reconciliation
    requires a.providerId.Some?
  {
    var closure := at + WINDOW_SECONDS + GRACE_SECONDS;
    Reconciliation(id, tenantId, a.id, a.providerId.value, at, at + WINDOW_SECONDS, closure, closure,
                   Pending, None, None, 0, None, at, at, Active, 0, None, None, None, None, None)
  }

  // ----- spending across the whole run -----

  /** One recovered attempt: what it spent, when it was accepted, the reconciliation it got. */
  datatype Spending = Spending(attempt: string, graph: Graph, at: Instant, reconId: string)

  datatype Change<+R> = Change(id: string, before: R, after: R)

  function BudgetChange(s: Spending): Change<Budget> {
    Change(s.graph.budget.id, s.graph.budget, SpentBudget(s.graph.budget, s.at))
  }

  function LeaseChange(s: Spending): Change<Lease> {
    Change(s.graph.lease.id, s.graph.lease, SpentLease(s.graph.lease, s.at))
  }

  function ConsumptionChange(s: Spending): Change<Consumption> {
    Change(s.graph.consumption.id, s.graph.consumption, SpentConsumption(s.graph.consumption, s.at))
  }

  function BoundedChange(s: Spending): Change<Bounded> {
    Change(s.graph.bounded.id, s.graph.bounded, SpentBounded(s.graph.bounded, s.at))
  }

  function HumanChange(s: Spending): Change<Human> {
    Change(s.graph.human.id, s.graph.human, SpentHuman(s.graph.human, s.at))
  }

  function AgentChange(s: Spending): Change<Agent> {
    Change(s.graph.agent.id, s.graph.agent, Executed(s.graph.agent, s.at))
  }

  /**
   A table after spending: each spent row was found as it was at the start and is now what
   spending makes of it, no row was spent twice, and every other row is as it was.
   */
  ghost predicate SpentFrom<R(!new)>(t0: map<string, R>, t: map<string, R>, spent: seq<Spending>,
        change: Spending -> Change<R>)
  {
    && t.Keys == t0.Keys
    && (forall i, j | 0 <= i < j < |spent| :: change(spent[i]).id != change(spent[j]).id)
    && (forall i | 0 <= i < |spent| ::
          && change(spent[i]).id in t0
          && t0[change(spent[i]).id] == change(spent[i]).before
          && t[change(spent[i]).id] == change(spent[i]).after)
    && (forall k | k in t0 :: t[k] == t0[k] || exists i :: 0 <= i < |spent| && change(spent[i]).id == k)
  }

  /** A row that is not what any spending leaves behind was not spent, so spending it is new. */
  lemma SpendOne<R(!new)>(t0: map<string, R>, t: map<string, R>, spent: seq<Spending>, s: Spending,
        change: Spending -> Change<R>)
    requires SpentFrom(t0, t, spent, change)
    requires change(s).id in t && t[change(s).id] == change(s).before
    requires forall i | 0 <= i < |spent| :: change(spent[i]).after != change(s).before
    ensures SpentFrom(t0, t[change(s).id := change(s).after], spent + [s], change)
  {
    var u, more := t[change(s).id := change(s).after], spent + [s];
    assert more[|spent|] == s;
    forall i | 0 <= i < |spent|
      ensures more[i] == spent[i] && change(spent[i]).id != change(s).id
    {
    }
    forall k | k in t0
      ensures u[k] == t0[k] || exists i :: 0 <= i < |more| && change(more[i]).id == k
    {
      if k == change(s).id {
        assert change(more[|spent|]).id == k;
      } else if u[k] != t0[k] {
        var i :| 0 <= i < |spent| && change(spent[i]).id == k;
        assert change(more[i]).id == k;
      }
    }
  }

  ghost predicate AuthoritySpent(l0: Ledger, l: Ledger, spent: seq<Spending>) {
    && SpentFrom(l0.budgets, l.budgets, spent, BudgetChange)
    && SpentFrom(l0.leases, l.leases, spent, LeaseChange)
    && SpentFrom(l0.consumptions, l.consumptions, spent, ConsumptionChange)
    && SpentFrom(l0.bounded, l.bounded, spent, BoundedChange)
    && SpentFrom(l0.humans, l.humans, spent, HumanChange)
    && SpentFrom(l0.agents, l.agents, spent, AgentChange)
  }

  /** The graph's rows are the ones the ledger holds. */
  ghost predicate Located(l: Ledger, g: Graph) {
    && g.budget.id in l.budgets && l.budgets[g.budget.id] == g.budget
    && g.lease.id in l.leases && l.leases[g.lease.id] == g.lease
    && g.consumption.id in l.consumptions && l.consumptions[g.consumption.id] == g.consumption
    && g.bounded.id in l.bounded && l.bounded[g.bounded.id] == g.bounded
    && g.human.id in l.humans && l.humans[g.human.id] == g.human
    && g.agent.id in l.agents && l.agents[g.agent.id] == g.agent
  }

  function Spend(l: Ledger, g: Graph, at: Instant, r: Reconciliation): Ledger {
    Ledger(
      l.agents[g.agent.id := Executed(g.agent, at)],
      l.consumptions[g.consumption.id := SpentConsumption(g.consumption, at)],
      l.leases[g.lease.id := SpentLease(g.lease, at)],
      l.budgets[g.budget.id := SpentBudget(g.budget, at)],
      l.bounded[g.bounded.id := SpentBounded(g.bounded, at)],
      l.humans[g.human.id := SpentHuman(g.human, at)],
      l.recons[r.id := r])
  }

  lemma SpendAuthority(l0: Ledger, l: Ledger, spent: seq<Spending>, s: Spending, r: Reconciliation)
    requires AuthoritySpent(l0, l, spent)
    requires Located(l, s.graph) && Reserved(s.graph)
    ensures AuthoritySpent(l0, Spend(l, s.graph, s.at, r), spent + [s])
  {
    SpendOne(l0.budgets, l.budgets, spent, s, BudgetChange);
    SpendOne(l0.leases, l.leases, spent, s, LeaseChange);
    SpendOne(l0.consumptions, l.consumptions, spent, s, ConsumptionChange);
    SpendOne(l0.bounded, l.bounded, spent, s, BoundedChange);
    SpendOne(l0.humans, l.humans, spent, s, HumanChange);
    SpendOne(l0.agents, l.agents, spent, s, AgentChange);
  }

  /** A spending is warranted by one acceptance, one exact graph, and a reserve. */
  ghost predicate Warranted(w: World, s: Spending, fingerprintOf: Scope -> string) {
    && Accepted(w, s.attempt)
    && var a := w.attempts[s.attempt];
    && var tenant := w.tenants[a.interactionId];
    && a.id == s.attempt
    && ExactAttempt(a)
    && ExactGraph(a, tenant, s.graph, fingerprintOf)
    && Reserved(s.graph)
    && s.at >= a.createdAt
    && (exists e | e in w.acceptances :: Accepts(w.acceptances[e], a, tenant) && w.acceptances[e].createdAt == s.at)
  }

  /** The reconciliation that a spending opened. */
  ghost predicate OpenedBy(w: World, r0: map<string, Reconciliation>, r: map<string, Reconciliation>, s: Spending) {
    && s.attempt in w.attempts
    && var a := w.attempts[s.attempt];
    && a.id == s.attempt
    && a.interactionId in w.tenants
    && a.providerId.Some?
    && s.reconId in r
    && s.reconId !in r0
    && r[s.reconId] == Opened(s.reconId, a, w.tenants[a.interactionId], s.at)
  }

  /** Reconciliations grow by one opened row for each spending. */
  ghost predicate OpenedFor(w: World, r0: map<string, Reconciliation>, r: map<string, Reconciliation>,
        spent: seq<Spending>)
  {
    && r0.Keys <= r.Keys
    && (forall k | k in r0 :: r[k] == r0[k])
    && (forall i | 0 <= i < |spent| :: OpenedBy(w, r0, r, spent[i]))
    && (forall k | k in r :: k in r0 || exists i :: 0 <= i < |spent| && spent[i].reconId == k)
  }

  ghost predicate UniqueOpened(recons: map<string, Reconciliation>) {
    forall j, k | j in recons && k in recons && j != k ::
      recons[j].providerId != recons[k].providerId && recons[j].outboxId != recons[k].outboxId
  }

  /** Nobody else's reconciliation is for an attempt that was orphaned and is not yet recovered. */
  lemma StillOrphaned(w: World, r0: map<string, Reconciliation>, r: map<string, Reconciliation>, spent: seq<Spending>,
        o: string)
    requires OpenedFor(w, r0, r, spent) && Orphan(w, r0, o)
    requires forall i | 0 <= i < |spent| :: spent[i].attempt != o
    ensures forall k | k in r :: r[k].outboxId != o
  {
    forall k | k in r && k !in r0
      ensures r[k].outboxId != o
    {
      var i :| 0 <= i < |spent| && spent[i].reconId == k;
      assert OpenedBy(w, r0, r, spent[i]);
    }
  }

  lemma KeysOnlyGrow(w: World, r0: map<string, Reconciliation>, r: map<string, Reconciliation>, spent: seq<Spending>)
    requires OpenedFor(w, r0, r, spent)
    ensures r0.Keys <= r.Keys
  {
  }

  lemma StaysUnique(recons: map<string, Reconciliation>, r: Reconciliation)
    requires UniqueOpened(recons)
    requires forall k | k in recons :: recons[k].providerId != r.providerId && recons[k].outboxId != r.outboxId
    ensures UniqueOpened(recons[r.id := r])
  {
  }

  lemma OpenOne(w: World, r0: map<string, Reconciliation>, r: map<string, Reconciliation>, spent: seq<Spending>,
        s: Spending, new_: Reconciliation)
    requires OpenedFor(w, r0, r, spent)
    requires s.reconId !in r
    requires OpenedBy(w, r0, r[s.reconId := new_], s)
    ensures OpenedFor(w, r0, r[s.reconId := new_], spent + [s])
  {
    hide Opened;
    var u, more := r[s.reconId := new_], spent + [s];
    assert more[|spent|] == s;
    forall i | 0 <= i < |spent|
      ensures more[i] == spent[i] && OpenedBy(w, r0, u, more[i])
    {
      assert OpenedBy(w, r0, r, spent[i]);
    }
  }

  /** What a finished recovery has done. */
  ghost predicate Recovered(w: World, l0: Ledger, l: Ledger, spent: seq<Spending>, fingerprintOf: Scope -> string) {
    && AuthoritySpent(l0, l, spent)
    && OpenedFor(w, l0.recons, l.recons, spent)
    && UniqueOpened(l.recons)
    && (forall i | 0 <= i < |spent| :: Warranted(w, spent[i], fingerprintOf) && Orphan(w, l0.recons, spent[i].attempt))
    && (forall i, j | 0 <= i < j < |spent| :: spent[i].attempt != spent[j].attempt)
  }

  ghost predicate IdsMatch(w: World, l: Ledger) {
    && (forall k | k in w.attempts :: w.attempts[k].id == k)
    && (forall k | k in w.runs :: w.runs[k].id == k)
    && (forall k | k in w.intents :: w.intents[k].id == k)
    && (forall k | k in l.agents :: l.agents[k].id == k)
    && (forall k | k in l.consumptions :: l.consumptions[k].id == k)
    && (forall k | k in l.leases :: l.leases[k].id == k)
    && (forall k | k in l.budgets :: l.budgets[k].id == k)
    && (forall k | k in l.bounded :: l.bounded[k].id == k)
    && (forall k | k in l.humans :: l.humans[k].id == k)
  }

  lemma NothingSpentYet(w: World, l: Ledger, f: Scope -> string)
    requires UniqueOpened(l.recons)
    ensures Recovered(w, l, l, [], f)
  {
  }

  /** What the loop has checked about the attempt it is about to recover. */
  ghost predicate Checked(w: World, l0: Ledger, l: Ledger, spent: seq<Spending>, s: Spending, f: Scope -> string) {
    && Located(l, s.graph)
    && Orphan(w, l0.recons, s.attempt)
    && Warranted(w, s, f)
    && (forall r | r in l.recons :: Some(l.recons[r].providerId) != w.attempts[s.attempt].providerId)
    && s.reconId !in l.recons
    && (forall i | 0 <= i < |spent| :: spent[i].attempt != s.attempt)
  }

  function Outcome(w: World, l: Ledger, s: Spending): Ledger
    requires Accepted(w, s.attempt) && w.attempts[s.attempt].providerId.Some?
  {
    var a := w.attempts[s.attempt];
    Spend(l, s.graph, s.at, Opened(s.reconId, a, w.tenants[a.interactionId], s.at))
  }

  lemma CheckedParts(w: World, l0: Ledger, l: Ledger, spent: seq<Spending>, s: Spending, f: Scope -> string)
    requires Checked(w, l0, l, spent, s, f)
    ensures Located(l, s.graph) && Reserved(s.graph) && Orphan(w, l0.recons, s.attempt) && Warranted(w, s, f)
    ensures Accepted(w, s.attempt) && w.attempts[s.attempt].id == s.attempt && ExactAttempt(w.attempts[s.attempt])
    ensures w.attempts[s.attempt].providerId.Some?
  {
  }

  /** One more attempt, checked as the loop does, keeps all of it. */
  lemma RecoverOne(w: World, l0: Ledger, l: Ledger, spent: seq<Spending>, s: Spending, f: Scope -> string)
    requires Recovered(w, l0, l, spent, f) && Checked(w, l0, l, spent, s, f)
    requires Accepted(w, s.attempt) && w.attempts[s.attempt].providerId.Some?
    ensures Recovered(w, l0, Outcome(w, l, s), spent + [s], f)
  {
    hide AuthoritySpent, OpenedFor, UniqueOpened, Warranted, Orphan, Located, Reserved, ExactAttempt;
    CheckedParts(w, l0, l, spent, s, f);
    var a := w.attempts[s.attempt];
    var r := Opened(s.reconId, a, w.tenants[a.interactionId], s.at);
    SpendAuthority(l0, l, spent, s, r);
    KeysOnlyGrow(w, l0.recons, l.recons, spent);
    OpenOne(w, l0.recons, l.recons, spent, s, r);
    StillOrphaned(w, l0.recons, l.recons, spent, s.attempt);
    StaysUnique(l.recons, r);
  }

  lemma SpendKeepsIds(w: World, l: Ledger, g: Graph, at: Instant, r: Reconciliation)
    requires IdsMatch(w, l)
    ensures IdsMatch(w, Spend(l, g, at, r))
  {
  }

  lemma AttemptId(w: World, l: Ledger, o: string)
    requires IdsMatch(w, l) && o in w.attempts
    ensures w.attempts[o].id == o
  {
  }

  // ----- when the recovery finishes -----

  /** The rows of the authority join that an attempt's foreign keys do not determine. */
  datatype Key = Key(run: string, consumption: string, bounded: string)

  ghost predicate OnlyJoin(w: World, l: Ledger, a: Attempt, k: Key) {
    && Joins(w, l, a, k.run, k.consumption, k.bounded)
    && forall r, c, b | Joins(w, l, a, r, c, b) :: Key(r, c, b) == k
  }

  function GraphOf(w: World, l: Ledger, a: Attempt, k: Key): Graph
    requires Joins(w, l, a, k.run, k.consumption, k.bounded)
  {
    Joined(w, l, a, k.run, k.consumption, k.bounded)
  }

  /** Exactly one acceptance of the attempt is on record, and it is not too early. */
  ghost predicate AcceptedAt(w: World, a: Attempt, tenantId: string, at: Instant) {
    && at >= a.createdAt
    && (exists e | e in w.acceptances :: Accepts(w.acceptances[e], a, tenantId) && w.acceptances[e].createdAt == at)
    && forall e, f | e in w.acceptances && f in w.acceptances ::
         Accepts(w.acceptances[e], a, tenantId) && Accepts(w.acceptances[f], a, tenantId) ==> e == f
  }

  /** Nothing blocks this attempt in this ledger. */
  ghost predicate Clears(w: World, l: Ledger, o: string, k: Key, f: Scope -> string,
        stableId: (string, string) -> string)
  {
    && Accepted(w, o)
    && var a := w.attempts[o];
    && var tenant := w.tenants[a.interactionId];
    && ExactAttempt(a)
    && (forall r | r in l.recons :: l.recons[r].providerId != a.providerId.value)
    && (exists at :: AcceptedAt(w, a, tenant, at))
    && OnlyJoin(w, l, a, k)
    && ExactGraph(a, tenant, GraphOf(w, l, a, k), f) && Reserved(GraphOf(w, l, a, k))
    && stableId("metarecon", o) !in l.recons
  }

  /** The two graphs share no row that recovery writes. */
  ghost predicate Apart(g: Graph, h: Graph) {
    && g.agent.id != h.agent.id && g.consumption.id != h.consumption.id && g.lease.id != h.lease.id
    && g.budget.id != h.budget.id && g.bounded.id != h.bounded.id && g.human.id != h.human.id
  }

  ghost predicate Compatible(w: World, l: Ledger, o: string, k: Key, p: string, m: Key,
        stableId: (string, string) -> string)
  {
    && Accepted(w, o) && Joins(w, l, w.attempts[o], k.run, k.consumption, k.bounded)
    && Accepted(w, p) && Joins(w, l, w.attempts[p], m.run, m.consumption, m.bounded)
    && Apart(GraphOf(w, l, w.attempts[o], k), GraphOf(w, l, w.attempts[p], m))
    && w.attempts[o].providerId != w.attempts[p].providerId
    && stableId("metarecon", o) != stableId("metarecon", p)
  }

  ghost predicate ClearsSomehow(w: World, l: Ledger, o: string, f: Scope -> string,
        stableId: (string, string) -> string)
  {
    exists k :: Clears(w, l, o, k, f, stableId)
  }

  ghost predicate NoCompetition(w: World, l: Ledger, o: string, p: string, f: Scope -> string,
        stableId: (string, string) -> string)
  {
    forall k, m | Clears(w, l, o, k, f, stableId) && Clears(w, l, p, m, f, stableId) ::
      Compatible(w, l, o, k, p, m, stableId)
  }

  /** Every attempt of a list clears on its own, and no two of them compete. */
  ghost predicate Feasible(w: World, l: Ledger, rows: seq<string>, f: Scope -> string,
        stableId: (string, string) -> string)
  {
    && (forall i | 0 <= i < |rows| :: ClearsSomehow(w, l, rows[i], f, stableId))
    && forall i, j | 0 <= i < j < |rows| :: NoCompetition(w, l, rows[i], rows[j], f, stableId)
  }

  /**
   The recovery can finish: every orphan clears on its own, and no two of them compete for a
   row, a provider id or an id.
   */
  ghost predicate Recoverable(w: World, l: Ledger, f: Scope -> string, stableId: (string, string) -> string) {
    && (forall o | Orphan(w, l.recons, o) :: ClearsSomehow(w, l, o, f, stableId))
    && forall o, p | Orphan(w, l.recons, o) && Orphan(w, l.recons, p) && o != p ::
         NoCompetition(w, l, o, p, f, stableId)
  }

  lemma CompetitionIsMutual(w: World, l: Ledger, o: string, p: string, f: Scope -> string,
        stableId: (string, string) -> string)
    requires NoCompetition(w, l, o, p, f, stableId)
    ensures NoCompetition(w, l, p, o, f, stableId)
  {
    hide Joins, Joined, Clears;
    forall k, m | Clears(w, l, p, k, f, stableId) && Clears(w, l, o, m, f, stableId)
      ensures Compatible(w, l, p, k, o, m, stableId)
    {
      assert Compatible(w, l, o, m, p, k, stableId);
    }
  }

  lemma RecoverableInAnyOrder(w: World, l: Ledger, rows: seq<string>, f: Scope -> string,
        stableId: (string, string) -> string)
    requires NoDuplicates(rows) && forall o :: o in rows <==> Orphan(w, l.recons, o)
    ensures Feasible(w, l, rows, f, stableId) <==> Recoverable(w, l, f, stableId)
  {
    hide Clears, Orphan, NoCompetition, ClearsSomehow;
    if Feasible(w, l, rows, f, stableId) {
      forall o | o in rows
        ensures ClearsSomehow(w, l, o, f, stableId)
      {
        var i :| 0 <= i < |rows| && rows[i] == o;
      }
      forall o, p | o in rows && p in rows && o != p
        ensures NoCompetition(w, l, o, p, f, stableId)
      {
        var i :| 0 <= i < |rows| && rows[i] == o;
        var j :| 0 <= j < |rows| && rows[j] == p;
        if j < i {
          CompetitionIsMutual(w, l, p, o, f, stableId);
        }
      }
    }
    if Recoverable(w, l, f, stableId) {
      forall i | 0 <= i < |rows|
        ensures Orphan(w, l.recons, rows[i])
      {
        assert rows[i] in rows;
      }
    }
  }

  /** Spending changes no column that the join reads. */
  lemma SpendKeepsJoins(w: World, l: Ledger, g: Graph, at: Instant, r: Reconciliation, a: Attempt, k: Key)
    requires IdsMatch(w, l) && Located(l, g)
    ensures Joins(w, Spend(l, g, at, r), a, k.run, k.consumption, k.bounded) <==>
      Joins(w, l, a, k.run, k.consumption, k.bounded)
  {
    hide IdsMatch;
    var u := Spend(l, g, at, r);
    SpendKeepsKeys(l, g, at, r);
    assert k.consumption in l.consumptions ==>
      && u.consumptions[k.consumption].outboxId == l.consumptions[k.consumption].outboxId
      && u.consumptions[k.consumption].leaseId == l.consumptions[k.consumption].leaseId
      && u.consumptions[k.consumption].budgetId == l.consumptions[k.consumption].budgetId;
    assert k.bounded in l.bounded ==>
      && u.bounded[k.bounded].runId == l.bounded[k.bounded].runId
      && u.bounded[k.bounded].budgetId == l.bounded[k.bounded].budgetId;
    assert a.agentId.Some? && a.agentId.value in l.agents ==>
      && u.agents[a.agentId.value].intentId == l.agents[a.agentId.value].intentId
      && u.agents[a.agentId.value].decisionId == l.agents[a.agentId.value].decisionId;
  }

  lemma SpendKeepsKeys(l: Ledger, g: Graph, at: Instant, r: Reconciliation)
    requires Located(l, g)
    ensures var u := Spend(l, g, at, r);
      && u.agents.Keys == l.agents.Keys && u.humans.Keys == l.humans.Keys && u.leases.Keys == l.leases.Keys
      && u.budgets.Keys == l.budgets.Keys && u.consumptions.Keys == l.consumptions.Keys
      && u.bounded.Keys == l.bounded.Keys
  {
    hide Executed, SpentConsumption, SpentLease, SpentBudget, SpentBounded, SpentHuman;
  }

  lemma SpendKeepsOnlyJoin(w: World, l: Ledger, g: Graph, at: Instant, r: Reconciliation, a: Attempt, k: Key)
    requires IdsMatch(w, l) && Located(l, g)
    ensures OnlyJoin(w, Spend(l, g, at, r), a, k) <==> OnlyJoin(w, l, a, k)
  {
    hide Joins, Spend, Located, IdsMatch;
    var u := Spend(l, g, at, r);
    SpendKeepsJoins(w, l, g, at, r, a, k);
    forall r', c, b
      ensures Joins(w, u, a, r', c, b) <==> Joins(w, l, a, r', c, b)
    {
      SpendKeepsJoins(w, l, g, at, r, a, Key(r', c, b));
    }
  }

  /**
   A graph is the same after spending another one exactly when the two share no row, and
   otherwise it is no longer reserved.
   */
  lemma SpendAgainstGraph(w: World, l: Ledger, g: Graph, at: Instant, r: Reconciliation, a: Attempt, k: Key)
    requires IdsMatch(w, l) && Located(l, g) && Reserved(g)
    requires Joins(w, l, a, k.run, k.consumption, k.bounded)
    requires Joins(w, Spend(l, g, at, r), a, k.run, k.consumption, k.bounded)
    ensures var h, h' := GraphOf(w, l, a, k), GraphOf(w, Spend(l, g, at, r), a, k);
      (Apart(g, h) ==> h' == h) && (Reserved(h') ==> Apart(g, h))
  {
  }

  /** After one attempt was recovered, another one clears exactly when it cleared before and does not compete. */
  lemma ClearsAfterIff(w: World, l: Ledger, o: string, k: Key, at: Instant, p: string, m: Key, f: Scope -> string,
        stableId: (string, string) -> string)
    requires IdsMatch(w, l) && o != p && Clears(w, l, o, k, f, stableId) && Accepted(w, p)
    requires Located(l, GraphOf(w, l, w.attempts[o], k))
    ensures var a := w.attempts[o];
      var u := Spend(l, GraphOf(w, l, a, k), at, Opened(stableId("metarecon", o), a, w.tenants[a.interactionId], at));
      Clears(w, u, p, m, f, stableId) <==>
        Clears(w, l, p, m, f, stableId) && Compatible(w, l, o, k, p, m, stableId)
  {
    hide IdsMatch, Located, ExactGraph, Reserved, Joins, Joined, AcceptedAt, Apart;
    var a, b := w.attempts[o], w.attempts[p];
    var g := GraphOf(w, l, a, k);
    var r := Opened(stableId("metarecon", o), a, w.tenants[a.interactionId], at);
    var u := Spend(l, g, at, r);
    SpendKeepsOnlyJoin(w, l, g, at, r, b, m);
    if OnlyJoin(w, l, b, m) {
      SpendAgainstGraph(w, l, g, at, r, b, m);
    }
    assert u.recons[r.id] == r;
    assert forall q | q in l.recons :: q in u.recons && u.recons[q] == l.recons[q];
    assert forall q | q in u.recons :: q == r.id || q in l.recons;
  }

  /** The ledger after one attempt that clears. */
  function After(w: World, l: Ledger, o: string, k: Key, at: Instant, stableId: (string, string) -> string): Ledger
    requires Accepted(w, o) && w.attempts[o].providerId.Some?
    requires Joins(w, l, w.attempts[o], k.run, k.consumption, k.bounded)
  {
    var a := w.attempts[o];
    Spend(l, GraphOf(w, l, a, k), at, Opened(stableId("metarecon", o), a, w.tenants[a.interactionId], at))
  }

  lemma JoinedRows(w: World, l: Ledger, a: Attempt, r: string, c: string, b: string)
    requires Joins(w, l, a, r, c, b)
    ensures r in w.runs && c in l.consumptions && b in l.bounded
  {
  }

  lemma OnlyAcceptance(w: World, a: Attempt, tenantId: string, t: Instant, found: set<string>)
    requires AcceptedAt(w, a, tenantId, t)
    requires forall e :: e in found <==> e in w.acceptances && Accepts(w.acceptances[e], a, tenantId)
    ensures exists e :: found == {e} && e in w.acceptances && w.acceptances[e].createdAt == t
  {
    var e :| e in w.acceptances && Accepts(w.acceptances[e], a, tenantId) && w.acceptances[e].createdAt == t;
    assert found == {e};
  }

  lemma OnlyRow(w: World, l: Ledger, a: Attempt, m: Key, rows: set<(string, string, string)>)
    requires OnlyJoin(w, l, a, m)
    requires forall r, c, b :: (r, c, b) in rows <==> Joins(w, l, a, r, c, b)
    ensures rows == {(m.run, m.consumption, m.bounded)}
  {
    hide Joins;
    forall row | row in rows
      ensures row == (m.run, m.consumption, m.bounded)
    {
      assert Joins(w, l, a, row.0, row.1, row.2);
    }
  }

  lemma GraphIsLocated(w: World, l: Ledger, a: Attempt, k: Key)
    requires IdsMatch(w, l) && Joins(w, l, a, k.run, k.consumption, k.bounded)
    ensures Located(l, GraphOf(w, l, a, k))
  {
  }

  /** The one join row of an attempt decides whether it clears. */
  lemma DecidedByJoin(w: World, l: Ledger, o: string, k: Key, f: Scope -> string, stableId: (string, string) -> string)
    requires Accepted(w, o) && OnlyJoin(w, l, w.attempts[o], k)
    requires !Clears(w, l, o, k, f, stableId)
    ensures forall m :: !Clears(w, l, o, m, f, stableId)
  {
    hide Joins, ExactGraph, Reserved, AcceptedAt, Joined;
  }

  lemma ClearsParts(w: World, l: Ledger, o: string, k: Key, f: Scope -> string, stableId: (string, string) -> string)
    requires Clears(w, l, o, k, f, stableId)
    ensures Accepted(w, o) && w.attempts[o].providerId.Some?
    ensures Joins(w, l, w.attempts[o], k.run, k.consumption, k.bounded)
  {
    hide Joins;
  }

  lemma KeyIsUnique(w: World, l: Ledger, o: string, k: Key, m: Key, f: Scope -> string,
        stableId: (string, string) -> string)
    requires Clears(w, l, o, k, f, stableId) && Clears(w, l, o, m, f, stableId)
    ensures k == m
  {
  }

  /**
   Two attempts that do not compete before a third one is recovered do not compete after it,
   and the other way round.
   */
  lemma CompatibleAfter(w: World, l: Ledger, o: string, k: Key, at: Instant, p: string, m: Key, q: string, n: Key,
        f: Scope -> string, stableId: (string, string) -> string)
    requires IdsMatch(w, l) && o != p && o != q && Clears(w, l, o, k, f, stableId)
    requires Located(l, GraphOf(w, l, w.attempts[o], k))
    requires Clears(w, After(w, l, o, k, at, stableId), p, m, f, stableId)
    requires Clears(w, After(w, l, o, k, at, stableId), q, n, f, stableId)
    ensures Clears(w, l, p, m, f, stableId) && Clears(w, l, q, n, f, stableId)
    ensures Compatible(w, After(w, l, o, k, at, stableId), p, m, q, n, stableId) <==>
      Compatible(w, l, p, m, q, n, stableId)
  {
    hide IdsMatch, Located, ExactGraph, Joins, Joined, AcceptedAt, Apart, Reserved, Spend, Opened;
    var a := w.attempts[o];
    var g, r := GraphOf(w, l, a, k), Opened(stableId("metarecon", o), a, w.tenants[a.interactionId], at);
    ClearsAfterIff(w, l, o, k, at, p, m, f, stableId);
    ClearsAfterIff(w, l, o, k, at, q, n, f, stableId);
    SpendAgainstGraph(w, l, g, at, r, w.attempts[p], m);
    SpendAgainstGraph(w, l, g, at, r, w.attempts[q], n);
  }

  lemma ClearsAfter(w: World, l: Ledger, o: string, k: Key, at: Instant, p: string, m: Key, f: Scope -> string,
        stableId: (string, string) -> string)
    requires IdsMatch(w, l) && o != p && Clears(w, l, o, k, f, stableId) && Accepted(w, p)
    requires Located(l, GraphOf(w, l, w.attempts[o], k))
    ensures Clears(w, After(w, l, o, k, at, stableId), p, m, f, stableId) <==>
      Clears(w, l, p, m, f, stableId) && Compatible(w, l, o, k, p, m, stableId)
  {
    hide IdsMatch, Located, ExactGraph, Joins, Joined, AcceptedAt, Apart, Reserved, Spend, Opened;
    ClearsAfterIff(w, l, o, k, at, p, m, f, stableId);
  }

  /** One of the others clears afterwards exactly when it did before and does not compete with the recovered one. */
  lemma OneAfter(w: World, l: Ledger, o: string, k: Key, at: Instant, p: string, f: Scope -> string,
        stableId: (string, string) -> string)
    requires IdsMatch(w, l) && o != p && Clears(w, l, o, k, f, stableId) && Accepted(w, p)
    requires Located(l, GraphOf(w, l, w.attempts[o], k))
    ensures ClearsSomehow(w, After(w, l, o, k, at, stableId), p, f, stableId) <==>
      ClearsSomehow(w, l, p, f, stableId) && NoCompetition(w, l, o, p, f, stableId)
  {
    hide IdsMatch, Located, Clears, Compatible, After, Joins, Accepted;
    ClearsParts(w, l, o, k, f, stableId);
    var u := After(w, l, o, k, at, stableId);
    forall m
      ensures Clears(w, u, p, m, f, stableId) <==>
        Clears(w, l, p, m, f, stableId) && Compatible(w, l, o, k, p, m, stableId)
    {
      ClearsAfter(w, l, o, k, at, p, m, f, stableId);
    }
    forall k', m | Clears(w, l, o, k', f, stableId) && Clears(w, l, p, m, f, stableId)
      ensures k' == k && forall n | Clears(w, l, p, n, f, stableId) :: n == m
    {
      KeyIsUnique(w, l, o, k', k, f, stableId);
      forall n | Clears(w, l, p, n, f, stableId)
        ensures n == m
      {
        KeyIsUnique(w, l, p, n, m, f, stableId);
      }
    }
  }

  /** Two of the others compete afterwards exactly when they did before, if both still clear. */
  lemma TwoAfter(w: World, l: Ledger, o: string, k: Key, at: Instant, p: string, q: string, f: Scope -> string,
        stableId: (string, string) -> string)
    requires IdsMatch(w, l) && o != p && o != q && Clears(w, l, o, k, f, stableId)
    requires Located(l, GraphOf(w, l, w.attempts[o], k))
    requires ClearsSomehow(w, After(w, l, o, k, at, stableId), p, f, stableId)
    requires ClearsSomehow(w, After(w, l, o, k, at, stableId), q, f, stableId)
    ensures NoCompetition(w, After(w, l, o, k, at, stableId), p, q, f, stableId) <==>
      NoCompetition(w, l, p, q, f, stableId)
  {
    hide IdsMatch, Located, Clears, Compatible, After, Joins, Accepted;
    ClearsParts(w, l, o, k, f, stableId);
    var u := After(w, l, o, k, at, stableId);
    var m :| Clears(w, u, p, m, f, stableId);
    var n :| Clears(w, u, q, n, f, stableId);
    CompatibleAfter(w, l, o, k, at, p, m, q, n, f, stableId);
    forall x, y | Clears(w, u, p, x, f, stableId) && Clears(w, u, q, y, f, stableId)
      ensures x == m && y == n
    {
      KeyIsUnique(w, u, p, x, m, f, stableId);
      KeyIsUnique(w, u, q, y, n, f, stableId);
    }
    forall x, y | Clears(w, l, p, x, f, stableId) && Clears(w, l, q, y, f, stableId)
      ensures x == m && y == n
    {
      KeyIsUnique(w, l, p, x, m, f, stableId);
      KeyIsUnique(w, l, q, y, n, f, stableId);
    }
  }

  /** So recovering the first of several attempts leaves the rest feasible exactly when all of them were. */
  lemma FeasibleStep(w: World, l: Ledger, rows: seq<string>, k: Key, at: Instant, f: Scope -> string,
        stableId: (string, string) -> string)
    requires IdsMatch(w, l) && NoDuplicates(rows) && |rows| > 0 && Clears(w, l, rows[0], k, f, stableId)
    requires forall i | 0 <= i < |rows| :: Accepted(w, rows[i])
    requires Located(l, GraphOf(w, l, w.attempts[rows[0]], k))
    ensures Feasible(w, l, rows, f, stableId) <==>
      Feasible(w, After(w, l, rows[0], k, at, stableId), rows[1..], f, stableId)
  {
    hide IdsMatch, Located, Clears, After, Joins, Accepted, ClearsSomehow, NoCompetition;
    ClearsParts(w, l, rows[0], k, f, stableId);
    var u := After(w, l, rows[0], k, at, stableId);
    FirstClears(w, l, rows[0], k, f, stableId);
    forall i | 0 <= i < |rows[1..]|
      ensures ClearsSomehow(w, u, rows[1..][i], f, stableId) <==>
        ClearsSomehow(w, l, rows[i + 1], f, stableId) && NoCompetition(w, l, rows[0], rows[i + 1], f, stableId)
    {
      OneAfter(w, l, rows[0], k, at, rows[i + 1], f, stableId);
    }
    forall i, j | 0 <= i < j < |rows[1..]| && ClearsSomehow(w, u, rows[1..][i], f, stableId)
      && ClearsSomehow(w, u, rows[1..][j], f, stableId)
      ensures NoCompetition(w, u, rows[1..][i], rows[1..][j], f, stableId) <==>
        NoCompetition(w, l, rows[i + 1], rows[j + 1], f, stableId)
    {
      TwoAfter(w, l, rows[0], k, at, rows[i + 1], rows[j + 1], f, stableId);
    }
    if Feasible(w, u, rows[1..], f, stableId) {
      FeasibleBefore(w, l, u, rows, f, stableId);
    }
  }

  lemma FirstClears(w: World, l: Ledger, o: string, k: Key, f: Scope -> string, stableId: (string, string) -> string)
    requires Clears(w, l, o, k, f, stableId)
    ensures ClearsSomehow(w, l, o, f, stableId)
  {
  }

  lemma FeasibleBefore(w: World, l: Ledger, u: Ledger, rows: seq<string>, f: Scope -> string,
        stableId: (string, string) -> string)
    requires |rows| > 0 && Feasible(w, u, rows[1..], f, stableId) && ClearsSomehow(w, l, rows[0], f, stableId)
    requires forall i | 0 <= i < |rows[1..]| && ClearsSomehow(w, u, rows[1..][i], f, stableId) ::
      ClearsSomehow(w, l, rows[i + 1], f, stableId) && NoCompetition(w, l, rows[0], rows[i + 1], f, stableId)
    requires forall i, j | 0 <= i < j < |rows[1..]| && NoCompetition(w, u, rows[1..][i], rows[1..][j], f, stableId) ::
      NoCompetition(w, l, rows[i + 1], rows[j + 1], f, stableId)
    ensures Feasible(w, l, rows, f, stableId)
  {
    hide ClearsSomehow, NoCompetition;
    forall i | 0 < i < |rows|
      ensures ClearsSomehow(w, l, rows[i], f, stableId) && NoCompetition(w, l, rows[0], rows[i], f, stableId)
    {
      assert ClearsSomehow(w, u, rows[1..][i - 1], f, stableId);
    }
    forall i, j | 0 < i < j < |rows|
      ensures NoCompetition(w, l, rows[i], rows[j], f, stableId)
    {
      assert NoCompetition(w, u, rows[1..][i - 1], rows[1..][j - 1], f, stableId);
    }
  }

  lemma BlockedIsNotFeasible(w: World, l: Ledger, rows: seq<string>, f: Scope -> string,
        stableId: (string, string) -> string)
    requires |rows| > 0 && forall m :: !Clears(w, l, rows[0], m, f, stableId)
    ensures !Feasible(w, l, rows, f, stableId)
  {
    hide Clears, NoCompetition;
    assert !ClearsSomehow(w, l, rows[0], f, stableId);
  }

  lemma NothingIsFeasible(w: World, l: Ledger, rows: seq<string>, f: Scope -> string,
        stableId: (string, string) -> string)
    requires rows == []
    ensures Feasible(w, l, rows, f, stableId)
  {
  }

  /** The step of the loop, at row `n`. */
  lemma FeasibleNext(w: World, l: Ledger, rows: seq<string>, n: nat, s: Spending, k: Key, f: Scope -> string,
        stableId: (string, string) -> string)
    requires IdsMatch(w, l) && NoDuplicates(rows) && n < |rows| && Clears(w, l, rows[n], k, f, stableId)
    requires forall i | 0 <= i < |rows| :: Accepted(w, rows[i])
    requires s.attempt == rows[n] && s.graph == GraphOf(w, l, w.attempts[rows[n]], k)
    requires s.reconId == stableId("metarecon", rows[n])
    requires Located(l, s.graph)
    ensures Feasible(w, l, rows[n..], f, stableId) <==> Feasible(w, Outcome(w, l, s), rows[n + 1..], f, stableId)
  {
    hide IdsMatch, Located, Feasible, Spend, Opened, Joined, Joins;
    var rest := rows[n..];
    assert rest[1..] == rows[n + 1..];
    assert Outcome(w, l, s) == After(w, l, rest[0], k, s.at, stableId);
    FeasibleStep(w, l, rest, k, s.at, f, stableId);
  }

  function OrphansOf(w: World, recons: map<string, Reconciliation>): (orphans: set<string>)
    ensures forall o :: o in orphans <==> Orphan(w, recons, o)
  {
    set o | o in w.attempts && Orphan(w, recons, o)
  }

  lemma OrphansAreAccepted(w: World, recons: map<string, Reconciliation>, rows: seq<string>)
    requires forall o | o in rows :: Orphan(w, recons, o)
    ensures forall i | 0 <= i < |rows| :: Accepted(w, rows[i])
  {
    forall i | 0 <= i < |rows|
      ensures Accepted(w, rows[i])
    {
      assert rows[i] in rows;
    }
  }

  lemma AllOrphansSpent(w: World, recons: map<string, Reconciliation>, rows: seq<string>, spent: seq<Spending>)
    requires forall o | Orphan(w, recons, o) :: o in rows
    requires |spent| == |rows| && forall i | 0 <= i < |rows| :: spent[i].attempt == rows[i]
    ensures forall o | Orphan(w, recons, o) :: exists i :: 0 <= i < |spent| && spent[i].attempt == o
  {
    hide Orphan;
    forall o | Orphan(w, recons, o)
      ensures exists i :: 0 <= i < |spent| && spent[i].attempt == o
    {
      var i :| 0 <= i < |rows| && rows[i] == o;
      assert spent[i].attempt == o;
    }
  }

  /** Attempt `o` clears with key `k`; spending `s` is what it calls for, and `after` is what that leaves. */
  ghost predicate Handled(w: World, l: Ledger, after: Ledger, o: string, s: Spending, k: Key, f: Scope -> string,
        stableId: (string, string) -> string)
  {
    && Clears(w, l, o, k, f, stableId)
    && s.attempt == o && s.graph == GraphOf(w, l, w.attempts[o], k) && s.reconId == stableId("metarecon", o)
    && Located(l, s.graph) && Warranted(w, s, f)
    && after == Outcome(w, l, s) && IdsMatch(w, after)
  }

  /** The loop after the first `n` orphans. */
  ghost predicate Progressed(w: World, l0: Ledger, l: Ledger, rows: seq<string>, n: nat, spent: seq<Spending>,
        f: Scope -> string, stableId: (string, string) -> string)
    requires n <= |rows|
  {
    && IdsMatch(w, l)
    && |spent| == n && (forall i | 0 <= i < n :: spent[i].attempt == rows[i])
    && Recovered(w, l0, l, spent, f)
    && (Feasible(w, l, rows[n..], f, stableId) <==> Recoverable(w, l0, f, stableId))
  }

  lemma ProgressStarts(w: World, l: Ledger, rows: seq<string>, f: Scope -> string,
        stableId: (string, string) -> string)
    requires IdsMatch(w, l) && UniqueOpened(l.recons)
    requires NoDuplicates(rows) && forall o :: o in rows <==> Orphan(w, l.recons, o)
    ensures Progressed(w, l, l, rows, 0, [], f, stableId)
  {
    hide IdsMatch, Recovered, Feasible, Recoverable, UniqueOpened, NoDuplicates, Orphan;
    NothingSpentYet(w, l, f);
    RecoverableInAnyOrder(w, l, rows, f, stableId);
    assert rows[0..] == rows;
  }

  lemma HandledParts(w: World, l: Ledger, after: Ledger, o: string, s: Spending, k: Key, f: Scope -> string,
        stableId: (string, string) -> string)
    requires Handled(w, l, after, o, s, k, f, stableId)
    ensures Accepted(w, o) && w.attempts[o].providerId.Some? && s.attempt == o && s.reconId !in l.recons
    ensures forall r | r in l.recons :: Some(l.recons[r].providerId) != w.attempts[o].providerId
    ensures Located(l, s.graph) && Warranted(w, s, f) && after == Outcome(w, l, s) && IdsMatch(w, after)
  {
    hide Joins, ExactGraph, Reserved, AcceptedAt, Joined, Located, IdsMatch, Warranted, Spend, Opened;
  }

  lemma ProgressIds(w: World, l0: Ledger, l: Ledger, rows: seq<string>, n: nat, spent: seq<Spending>,
        f: Scope -> string, stableId: (string, string) -> string)
    requires n <= |rows| && Progressed(w, l0, l, rows, n, spent, f, stableId)
    ensures IdsMatch(w, l) && (Feasible(w, l, rows[n..], f, stableId) <==> Recoverable(w, l0, f, stableId))
  {
    hide IdsMatch, Recovered, Feasible, Recoverable;
  }

  lemma ProgressEnds(w: World, l0: Ledger, l: Ledger, rows: seq<string>, spent: seq<Spending>,
        f: Scope -> string, stableId: (string, string) -> string)
    requires Progressed(w, l0, l, rows, |rows|, spent, f, stableId)
    ensures |spent| == |rows| && (forall i | 0 <= i < |rows| :: spent[i].attempt == rows[i])
    ensures Recovered(w, l0, l, spent, f) && Recoverable(w, l0, f, stableId)
  {
    hide IdsMatch, Recovered, Feasible, Recoverable;
    NothingIsFeasible(w, l, rows[|rows|..], f, stableId);
  }

  lemma ProgressAdvances(w: World, l0: Ledger, l: Ledger, after: Ledger, rows: seq<string>, n: nat,
        spent: seq<Spending>, s: Spending, k: Key, f: Scope -> string, stableId: (string, string) -> string)
    requires NoDuplicates(rows) && n < |rows| && forall i | 0 <= i < |rows| :: Accepted(w, rows[i])
    requires Progressed(w, l0, l, rows, n, spent, f, stableId) && Handled(w, l, after, rows[n], s, k, f, stableId)
    requires Orphan(w, l0.recons, rows[n])
    ensures Progressed(w, l0, after, rows, n + 1, spent + [s], f, stableId)
  {
    hide IdsMatch, Recovered, Feasible, Recoverable, Clears, GraphOf, Located, Warranted, Outcome, Orphan;
    HandledParts(w, l, after, rows[n], s, k, f, stableId);
    FeasibleNext(w, l, rows, n, s, k, f, stableId);
    assert forall i | 0 <= i < |spent| :: spent[i].attempt != s.attempt;
    RecoverOne(w, l0, l, spent, s, f);
  }

  class AttemptDatabase {
    const world: World
    var agents: map<string, Agent>
    var consumptions: map<string, Consumption>
    var leases: map<string, Lease>
    var budgets: map<string, Budget>
    var bounded: map<string, Bounded>
    var humans: map<string, Human>
    var recons: map<string, Reconciliation>

    function Contents(): Ledger
      reads this
    {
      Ledger(agents, consumptions, leases, budgets, bounded, humans, recons)
    }

    constructor (world: World, l: Ledger)
      ensures this.world == world && Contents() == l
    {
      this.world := world;
      agents, consumptions, leases, budgets := l.agents, l.consumptions, l.leases, l.budgets;
      bounded, humans, recons := l.bounded, l.humans, l.recons;
    }

    /** The instant of the one acceptance of an attempt, if there is exactly one and it is not too early. */
    method FindAcceptance(a: Attempt, tenantId: string) returns (at: Option<Instant>)
      ensures at.Some? ==> AcceptedAt(world, a, tenantId, at.value)
      ensures at.None? ==> forall t :: !AcceptedAt(world, a, tenantId, t)
    {
      var found := set e | e in world.acceptances && Accepts(world.acceptances[e], a, tenantId);
      at := None;
      if found != {} {
        var e :| e in found;
        if found == {e} && world.acceptances[e].createdAt >= a.createdAt {
          at := Some(world.acceptances[e].createdAt);
          assert forall f | f in world.acceptances && Accepts(world.acceptances[f], a, tenantId) :: f in found;
          return;
        }
      }
      forall t
        ensures !AcceptedAt(world, a, tenantId, t)
      {
        if AcceptedAt(world, a, tenantId, t) {
          OnlyAcceptance(world, a, tenantId, t, found);
        }
      }
    }

    /** The authority graph of an attempt, if the join has exactly one row. */
    method FindGraph(a: Attempt) returns (g: Option<Graph>, ghost k: Key)
      requires IdsMatch(world, Contents())
      ensures g.Some? ==> Located(Contents(), g.value)
      ensures g.Some? ==> OnlyJoin(world, Contents(), a, k) && g.value == GraphOf(world, Contents(), a, k)
      ensures g.None? ==> forall m :: !OnlyJoin(world, Contents(), a, m)
    {
      hide IdsMatch, Joins, Joined, Located;
      k := *;
      var l := Contents();
      var rows := set r, c, b | r in world.runs && c in consumptions && b in bounded && Joins(world, l, a, r, c, b)
        :: (r, c, b);
      forall r, c, b
        ensures (r, c, b) in rows <==> Joins(world, l, a, r, c, b)
      {
        if Joins(world, l, a, r, c, b) {
          JoinedRows(world, l, a, r, c, b);
        }
      }
      g := None;
      if rows != {} {
        var row :| row in rows;
        if rows == {row} {
          g, k := Some(Joined(world, l, a, row.0, row.1, row.2)), Key(row.0, row.1, row.2);
          assert forall r, c, b | Joins(world, l, a, r, c, b) :: (r, c, b) in rows;
          GraphIsLocated(world, l, a, k);
          return;
        }
      }
      forall m
        ensures !OnlyJoin(world, l, a, m)
      {
        if OnlyJoin(world, l, a, m) {
          OnlyRow(world, l, a, m, rows);
        }
      }
    }

    /** One round of the loop: recover attempt `o`, or report a block without writing. */
    method RecoverAttempt(o: string, fingerprintOf: Scope -> string, stableId: (string, string) -> string)
        returns (ok: bool, ghost s: Spending, ghost k: Key)
      requires IdsMatch(world, Contents()) && Accepted(world, o)
      modifies this
      ensures !ok ==>
        && Contents() == old(Contents())
        && forall m :: !Clears(world, old(Contents()), o, m, fingerprintOf, stableId)
      ensures ok ==> Handled(world, old(Contents()), Contents(), o, s, k, fingerprintOf, stableId)
    {
      hide IdsMatch, Located, ExactGraph, Reserved, Accepts, AcceptedAt, Joins, Joined, Spend, Opened, OnlyJoin;
      var a := world.attempts[o];
      AttemptId(world, Contents(), o);
      var tenant := world.tenants[a.interactionId];
      var reconId := stableId("metarecon", o);
      ghost var l := Contents();
      s, k := *, *;
      ok := ExactAttempt(a) && forall r | r in recons :: recons[r].providerId != a.providerId.value;
      if !ok {
        return;
      }
      var at := FindAcceptance(a, tenant);
      var g;
      g, k := FindGraph(a);
      ok := && at.Some? && g.Some? && ExactGraph(a, tenant, g.value, fingerprintOf) && Reserved(g.value)
            && reconId !in recons;
      if at.Some? && g.Some? && !ok {
        DecidedByJoin(world, l, o, k, fingerprintOf, stableId);
      }
      if ok {
        var r := Opened(reconId, a, tenant, at.value);
        s := Spending(o, g.value, at.value, reconId);
        SpendKeepsIds(world, l, g.value, at.value, r);
        Write(g.value, at.value, r);
      }
    }

    /** _recover_historical_attempts: recover every orphaned accepted attempt, or change nothing. */
    method RecoverAttempts(fingerprintOf: Scope -> string, stableId: (string, string) -> string)
        returns (ok: bool, ghost spent: seq<Spending>)
      requires IdsMatch(world, Contents()) && UniqueOpened(recons)
      modifies this
      ensures !ok ==> Contents() == old(Contents())
      ensures ok <==> Recoverable(world, old(Contents()), fingerprintOf, stableId)
      ensures ok ==> Recovered(world, old(Contents()), Contents(), spent, fingerprintOf)
      ensures ok ==> forall o | Orphan(world, old(recons), o) :: exists i :: 0 <= i < |spent| && spent[i].attempt == o
    {
      hide IdsMatch, Recovered, UniqueOpened, Feasible, Recoverable, Clears, Accepted, Orphan, NoDuplicates, Handled,
           Progressed;
      var l0 := Contents();
      var rows := Enumerate(OrphansOf(world, recons));
      spent := [];
      ProgressStarts(world, l0, rows, fingerprintOf, stableId);
      OrphansAreAccepted(world, recons, rows);
      for n := 0 to |rows|
        invariant Progressed(world, l0, Contents(), rows, n, spent, fingerprintOf, stableId)
      {
        ghost var l := Contents();
        ProgressIds(world, l0, l, rows, n, spent, fingerprintOf, stableId);
        ghost var s, k;
        ok, s, k := RecoverAttempt(rows[n], fingerprintOf, stableId);
        if !ok {
          BlockedIsNotFeasible(world, l, rows[n..], fingerprintOf, stableId);
          Restore(l0);
          return;
        }
        assert rows[n] in rows;
        ProgressAdvances(world, l0, l, Contents(), rows, n, spent, s, k, fingerprintOf, stableId);
        spent := spent + [s];
      }
      ProgressEnds(world, l0, Contents(), rows, spent, fingerprintOf, stableId);
      ok := true;
      AllOrphansSpent(world, l0.recons, rows, spent);
    }

    method Restore(l: Ledger)
      modifies this
      ensures Contents() == l
    {
      agents, consumptions, leases, budgets := l.agents, l.consumptions, l.leases, l.budgets;
      bounded, humans, recons := l.bounded, l.humans, l.recons;
    }

    /** The seven statements that spend one graph and open its reconciliation. */
    method Write(g: Graph, at: Instant, r: Reconciliation)
      modifies this
      ensures Contents() == Spend(old(Contents()), g, at, r)
    {
      consumptions := consumptions[g.consumption.id := SpentConsumption(g.consumption, at)];
      leases := leases[g.lease.id := SpentLease(g.lease, at)];
      budgets := budgets[g.budget.id := SpentBudget(g.budget, at)];
      humans := humans[g.human.id := SpentHuman(g.human, at)];
      bounded := bounded[g.bounded.id := SpentBounded(g.bounded, at)];
      agents := agents[g.agent.id := Executed(g.agent, at)];
      recons := recons[r.id := r];
    }
  }

  // ----- what a finished recovery means -----

  /** No budget, lease, authorization, consumption or agent intent was spent by two attempts. */
  lemma NothingIsSpentTwice(w: World, l0: Ledger, l: Ledger, spent: seq<Spending>, f: Scope -> string, i: nat, j: nat)
    requires Recovered(w, l0, l, spent, f) && i < j < |spent|
    ensures spent[i].graph.budget.id != spent[j].graph.budget.id
    ensures spent[i].graph.lease.id != spent[j].graph.lease.id
    ensures spent[i].graph.bounded.id != spent[j].graph.bounded.id
    ensures spent[i].graph.human.id != spent[j].graph.human.id
    ensures spent[i].graph.consumption.id != spent[j].graph.consumption.id
    ensures spent[i].graph.agent.id != spent[j].graph.agent.id
  {
    assert BudgetChange(spent[i]).id != BudgetChange(spent[j]).id;
    assert LeaseChange(spent[i]).id != LeaseChange(spent[j]).id;
    assert BoundedChange(spent[i]).id != BoundedChange(spent[j]).id;
    assert HumanChange(spent[i]).id != HumanChange(spent[j]).id;
    assert ConsumptionChange(spent[i]).id != ConsumptionChange(spent[j]).id;
    assert AgentChange(spent[i]).id != AgentChange(spent[j]).id;
  }

  /** Spending moves a budget's one unit from reserved to consumed; no budget gains or loses any. */
  lemma BudgetsConserved(w: World, l0: Ledger, l: Ledger, spent: seq<Spending>, f: Scope -> string, b: string)
    requires Recovered(w, l0, l, spent, f) && b in l0.budgets
    ensures b in l.budgets
    ensures l.budgets[b].reserved + l.budgets[b].consumed == l0.budgets[b].reserved + l0.budgets[b].consumed
    ensures l.budgets[b].stimulusLimit + l.budgets[b].systemLimit
      == l0.budgets[b].stimulusLimit + l0.budgets[b].systemLimit
    ensures var limit := l.budgets[b].stimulusLimit + l.budgets[b].systemLimit;
      l0.budgets[b].reserved <= limit && l0.budgets[b].consumed <= limit ==>
        l.budgets[b].reserved <= limit && l.budgets[b].consumed <= limit
    ensures l.budgets[b] != l0.budgets[b] ==>
      l0.budgets[b].status == "RESERVED" && l.budgets[b].status == "CONSUMED" && l.budgets[b].reserved == 0
  {
    hide AuthoritySpent, OpenedFor, UniqueOpened, Warranted, Orphan;
    SameBudgets(l0, l, spent);
    if l.budgets[b] != l0.budgets[b] {
      var i := BudgetSpending(l0, l, spent, b);
      ReservedBudget(w, spent[i], f);
    }
  }

  lemma SameBudgets(l0: Ledger, l: Ledger, spent: seq<Spending>)
    requires AuthoritySpent(l0, l, spent)
    ensures l.budgets.Keys == l0.budgets.Keys
  {
  }

  /** A budget that changed was the budget of some spending. */
  lemma BudgetSpending(l0: Ledger, l: Ledger, spent: seq<Spending>, b: string) returns (i: nat)
    requires AuthoritySpent(l0, l, spent) && b in l0.budgets && b in l.budgets && l.budgets[b] != l0.budgets[b]
    ensures i < |spent| && l0.budgets[b] == spent[i].graph.budget
    ensures l.budgets[b] == SpentBudget(spent[i].graph.budget, spent[i].at)
  {
    hide SpentFrom;
    assert SpentFrom(l0.budgets, l.budgets, spent, BudgetChange);
    i := ChangedWasSpent(l0.budgets, l.budgets, spent, BudgetChange, b);
  }

  lemma ChangedWasSpent<R(!new)>(t0: map<string, R>, t: map<string, R>, spent: seq<Spending>,
        change: Spending -> Change<R>, k: string)
      returns (i: nat)
    requires SpentFrom(t0, t, spent, change) && k in t0 && t[k] != t0[k]
    ensures i < |spent| && t0[k] == change(spent[i]).before && t[k] == change(spent[i]).after
  {
    i :| 0 <= i < |spent| && change(spent[i]).id == k;
  }

  lemma ReservedBudget(w: World, s: Spending, f: Scope -> string)
    requires Warranted(w, s, f)
    ensures Reserved(s.graph)
  {
  }

  /** Reconciliation `r` is the only one of attempt `o`, under its own provider id and the fixed windows. */
  ghost predicate OnlyReconciliation(w: World, recons: map<string, Reconciliation>, o: string, r: string) {
    && r in recons && o in w.attempts
    && recons[r].outboxId == o
    && Some(recons[r].providerId) == w.attempts[o].providerId
    && recons[r].deadlineAt == recons[r].acceptedAt + WINDOW_SECONDS
    && recons[r].closureAfter == recons[r].deadlineAt + GRACE_SECONDS
    && ReconciliationCheck(recons[r])
    && forall q | q in recons && recons[q].outboxId == o :: q == r
  }

  /** Every recovered attempt ends with exactly one reconciliation, of its own provider id. */
  lemma RecoveredOnce(w: World, l0: Ledger, l: Ledger, spent: seq<Spending>, i: nat)
    requires OpenedFor(w, l0.recons, l.recons, spent) && UniqueOpened(l.recons) && i < |spent|
    ensures OnlyReconciliation(w, l.recons, spent[i].attempt, spent[i].reconId)
  {
    assert OpenedBy(w, l0.recons, l.recons, spent[i]);
  }

  lemma OrphansReconciledOnce(w: World, l0: Ledger, l: Ledger, spent: seq<Spending>, f: Scope -> string, o: string)
    requires Recovered(w, l0, l, spent, f)
    requires exists i :: 0 <= i < |spent| && spent[i].attempt == o
    ensures exists r :: OnlyReconciliation(w, l.recons, o, r)
    ensures !Orphan(w, l.recons, o)
  {
    hide AuthoritySpent, OpenedFor, UniqueOpened, Warranted, Opened;
    var i :| 0 <= i < |spent| && spent[i].attempt == o;
    RecoveredOnce(w, l0, l, spent, i);
  }

  /** And no attempt at all is left without one. */
  lemma NoOrphanIsLeft(w: World, l0: Ledger, l: Ledger, spent: seq<Spending>, f: Scope -> string)
    requires Recovered(w, l0, l, spent, f)
    requires forall o | Orphan(w, l0.recons, o) :: exists i :: 0 <= i < |spent| && spent[i].attempt == o
    ensures forall o :: !Orphan(w, l.recons, o)
  {
    forall o
      ensures !Orphan(w, l.recons, o)
    {
      if Orphan(w, l0.recons, o) {
        OrphansReconciledOnce(w, l0, l, spent, f, o);
      } else if Accepted(w, o) {
        var r :| r in l0.recons && l0.recons[r].outboxId == o;
        assert l.recons[r] == l0.recons[r];
      }
    }
  }
}
