/**
 Execution intents, their targets, and the bridge from scenario runs over agent intents to
 the execution intent that authorizes them: four tables under the update, insert and
 delete triggers in force, with their keys and partial unique indexes.
 */
module IntentAuthority {
  import opened Common

  datatype State = Prepared | Frozen | Retired | Materialized

  /** What an intent authorizes, and everything else its trigger compares. */
  datatype Authority = Authority(
    idempotencyKey: string, scope: string, fingerprint: string, provenance: string,
    profileId: Option<string>, expiresAt: Option<int>)

  datatype Intent = Intent(
    id: string, authority: Authority, state: State, createdAt: int, frozenAt: Option<int>, retiredAt: Option<int>)

  datatype Target = Target(id: string, intentId: string, targetType: string, endpointId: string, ordinal: int)

  /** The parts of an agent intent that are frozen once it is bridged. */
  datatype Request = Request(
    source: string, intentType: string, snapshot: string, recipient: string, capability: string,
    capabilityRequest: string)

  datatype Agent = Agent(id: string, intentId: Option<string>, fingerprint: Option<string>, request: Request,
        rest: string)

  datatype ScenarioRun = ScenarioRun(id: string, agentId: Option<string>, rest: string)

  datatype Tables = Tables(
    intents: map<string, Intent>,
    targets: map<string, Target>,
    agents: map<string, Agent>,
    runs: map<string, ScenarioRun>)

  // ----- constraints -----

  predicate KeysMatch(t: Tables) {
    && (forall k | k in t.intents :: t.intents[k].id == k)
    && (forall k | k in t.targets :: t.targets[k].id == k)
    && (forall k | k in t.agents :: t.agents[k].id == k)
    && (forall k | k in t.runs :: t.runs[k].id == k)
  }

  predicate UniqueIntents(t: Tables) {
    forall j, k | j in t.intents && k in t.intents && j != k ::
      && t.intents[j].authority.idempotencyKey != t.intents[k].authority.idempotencyKey
      && t.intents[j].authority.fingerprint != t.intents[k].authority.fingerprint
  }

  predicate TargetRows(t: Tables) {
    && (forall k | k in t.targets ::
          && t.targets[k].ordinal >= 0 && t.targets[k].targetType == "WHATSAPP_RECIPIENT_ENDPOINT"
          && t.targets[k].intentId in t.intents)
    && forall j, k | j in t.targets && k in t.targets && j != k && t.targets[j].intentId == t.targets[k].intentId ::
         t.targets[j].targetType != t.targets[k].targetType && t.targets[j].ordinal != t.targets[k].ordinal
  }

  /** uq_agent_execution_intents_production_parent, the bridge pair check and the foreign key. */
  predicate AgentRows(t: Tables) {
    && (forall k | k in t.agents ::
          && (t.agents[k].intentId.Some? <==> t.agents[k].fingerprint.Some?)
          && (t.agents[k].intentId.Some? ==> t.agents[k].intentId.value in t.intents))
    && forall j, k | j in t.agents && k in t.agents && t.agents[j].intentId.Some?
         && t.agents[j].intentId == t.agents[k].intentId :: j == k
  }

  /** uq_scenario_run_production_agent_intent and the foreign key. */
  predicate RunRows(t: Tables) {
    && (forall k | k in t.runs && t.runs[k].agentId.Some? :: t.runs[k].agentId.value in t.agents)
    && forall j, k | j in t.runs && k in t.runs && t.runs[j].agentId.Some? && t.runs[j].agentId == t.runs[k].agentId ::
         j == k
  }

  predicate Consistent(t: Tables) {
    KeysMatch(t) && UniqueIntents(t) && TargetRows(t) && AgentRows(t) && RunRows(t)
  }

  // ----- triggers -----

  /** reject_frozen_execution_intent_update, as 0027 left it. */
  predicate IntentAllows(o: Intent, n: Intent) {
    && (o.state == Frozen ==> n.state in {Frozen, Materialized, Retired})
    && (o.state in {Retired, Materialized} ==> n.state == o.state)
    && n.id == o.id && n.authority == o.authority
  }

  /** reject_execution_intent_target_mutation, for an insert. */
  predicate TargetAllows(t: Tables, n: Target) {
    n.intentId in t.intents ==> t.intents[n.intentId].state !in {Frozen, Materialized}
  }

  /** reject_production_bridge_rebind. */
  predicate AgentAllows(o: Agent, n: Agent) {
    && n.intentId == o.intentId && n.fingerprint == o.fingerprint
    && (o.intentId.Some? ==> n.request == o.request)
  }

  /** reject_production_run_rebind. */
  predicate RunAllows(o: ScenarioRun, n: ScenarioRun) {
    n.agentId == o.agentId
  }

  // ----- statements -----

  datatype Command =
    | InsertIntent(intent: Intent) | UpdateIntent(key: string, intent: Intent) | DeleteIntent(key: string)
    | InsertTarget(target: Target) | UpdateTarget(key: string, target: Target) | DeleteTarget(key: string)
    | InsertAgent(agent: Agent) | UpdateAgent(key: string, agent: Agent) | DeleteAgent(key: string)
    | InsertRun(run: ScenarioRun) | UpdateRun(key: string, run: ScenarioRun) | DeleteRun(key: string)

  predicate Permitted(t: Tables, c: Command) {
    match c
    case InsertIntent(n) => n.id !in t.intents
    case UpdateIntent(k, n) => k in t.intents && (n.id == k || n.id !in t.intents) && IntentAllows(t.intents[k], n)
    case DeleteIntent(k) => k in t.intents
    case InsertTarget(n) => n.id !in t.targets && TargetAllows(t, n)
    case UpdateTarget(_, _) => false
    case DeleteTarget(_) => false
    case InsertAgent(n) => n.id !in t.agents
    case UpdateAgent(k, n) => k in t.agents && (n.id == k || n.id !in t.agents) && AgentAllows(t.agents[k], n)
    case DeleteAgent(k) => k in t.agents
    case InsertRun(n) => n.id !in t.runs
    case UpdateRun(k, n) => k in t.runs && (n.id == k || n.id !in t.runs) && RunAllows(t.runs[k], n)
    case DeleteRun(k) => k in t.runs
  }

  function Effect(t: Tables, c: Command): Tables {
    match c
    case InsertIntent(n) => t.(intents := t.intents[n.id := n])
    case UpdateIntent(k, n) => t.(intents := (t.intents - {k})[n.id := n])
    case DeleteIntent(k) => t.(intents := t.intents - {k})
    case InsertTarget(n) => t.(targets := t.targets[n.id := n])
    case UpdateTarget(k, n) => t.(targets := (t.targets - {k})[n.id := n])
    case DeleteTarget(k) => t.(targets := t.targets - {k})
    case InsertAgent(n) => t.(agents := t.agents[n.id := n])
    case UpdateAgent(k, n) => t.(agents := (t.agents - {k})[n.id := n])
    case DeleteAgent(k) => t.(agents := t.agents - {k})
    case InsertRun(n) => t.(runs := t.runs[n.id := n])
    case UpdateRun(k, n) => t.(runs := (t.runs - {k})[n.id := n])
    case DeleteRun(k) => t.(runs := t.runs - {k})
  }

  predicate Accepted(t: Tables, c: Command) {
    Permitted(t, c) && Consistent(Effect(t, c))
  }

  function Execute(t: Tables, c: Command): Tables {
    if Accepted(t, c) then Effect(t, c) else t
  }

  /** The live tables. */
  class IntentStore {
    var intents: map<string, Intent>
    var targets: map<string, Target>
    var agents: map<string, Agent>
    var runs: map<string, ScenarioRun>

    function Contents(): Tables
      reads this
    {
      Tables(intents, targets, agents, runs)
    }

    constructor ()
      ensures Consistent(Contents())
      ensures Contents() == Tables(map[], map[], map[], map[])
    {
      intents, targets, agents, runs := map[], map[], map[], map[];
    }

    method Write(c: Command)
      requires Permitted(Contents(), c)
      modifies this
      ensures Contents() == Effect(old(Contents()), c)
    {
      match c {
        case InsertIntent(n) => intents := intents[n.id := n];
        case UpdateIntent(k, n) => intents := (intents - {k})[n.id := n];
        case DeleteIntent(k) => intents := intents - {k};
        case InsertTarget(n) => targets := targets[n.id := n];
        case UpdateTarget(_, _) =>
        case DeleteTarget(_) =>
        case InsertAgent(n) => agents := agents[n.id := n];
        case UpdateAgent(k, n) => agents := (agents - {k})[n.id := n];
        case DeleteAgent(k) => agents := agents - {k};
        case InsertRun(n) => runs := runs[n.id := n];
        case UpdateRun(k, n) => runs := (runs - {k})[n.id := n];
        case DeleteRun(k) => runs := runs - {k};
      }
    }

    /** Triggers first, then the write, then the constraints; a violation undoes the write. */
    method Run(c: Command) returns (ok: bool)
      requires Consistent(Contents())
      modifies this
      ensures ok == Accepted(old(Contents()), c)
      ensures Contents() == Execute(old(Contents()), c)
    {
      hide Consistent, Permitted, Effect;
      var before := Contents();
      ok := Permitted(before, c);
      if ok {
        Write(c);
        ok := Consistent(Contents());
        if !ok {
          intents, targets, agents, runs := before.intents, before.targets, before.agents, before.runs;
        }
      }
    }
  }

  // ----- runs of statements -----

  ghost predicate IsHistory(h: seq<Tables>) {
    && |h| > 0 && Consistent(h[0])
    && forall i {:trigger Next(h[i], h[i + 1])} | 0 <= i < |h| - 1 :: Next(h[i], h[i + 1])
  }

  ghost predicate Next(t: Tables, u: Tables) {
    exists c :: u == Execute(t, c)
  }

  lemma NextKeepsConsistent(t: Tables, u: Tables)
    requires Consistent(t) && Next(t, u)
    ensures Consistent(u)
  {
    hide Consistent;
    var c :| u == Execute(t, c);
  }

  lemma {:induction false} AlwaysConsistent(h: seq<Tables>, i: nat)
    requires IsHistory(h) && i < |h|
    ensures Consistent(h[i])
  {
    hide Next, Consistent;
    if i > 0 {
      var k := i - 1;
      AlwaysConsistent(h, k);
      assert Next(h[k], h[k + 1]);
      NextKeepsConsistent(h[k], h[k + 1]);
    }
  }

  // ----- intents and their targets -----

  /** The intent is there in every state from `i` to `j`. */
  ghost predicate Stays(h: seq<Tables>, id: string, i: nat, j: nat) {
    i <= j < |h| && forall k | i <= k <= j :: id in h[k].intents
  }

  function TargetsOf(t: Tables, id: string): map<string, Target> {
    map k | k in t.targets && t.targets[k].intentId == id :: t.targets[k]
  }

  predicate Holds(s: State) {
    s == Frozen || s == Materialized
  }

  lemma IntentStatement(t: Tables, c: Command, id: string)
    requires Permitted(t, c) && id in t.intents && id in Effect(t, c).intents
    ensures IntentAllows(t.intents[id], Effect(t, c).intents[id])
    ensures Holds(t.intents[id].state) ==> TargetsOf(Effect(t, c), id) == TargetsOf(t, id)
  {
    if c.UpdateIntent? && c.key != id {
      assert Effect(t, c).intents[id] == t.intents[id];
    }
  }

  lemma IntentStep(h: seq<Tables>, id: string, k: nat)
    requires IsHistory(h) && k + 1 < |h| && id in h[k].intents && id in h[k + 1].intents
    ensures IntentAllows(h[k].intents[id], h[k + 1].intents[id])
    ensures Holds(h[k].intents[id].state) ==> TargetsOf(h[k + 1], id) == TargetsOf(h[k], id)
  {
    hide Permitted, Effect, Consistent, TargetsOf;
    assert Next(h[k], h[k + 1]);
    var c :| h[k + 1] == Execute(h[k], c);
    if Accepted(h[k], c) {
      IntentStatement(h[k], c, id);
    }
  }

  /** What an intent authorizes is fixed from its insertion on, in every state. */
  lemma {:induction false} AuthorityNeverChanges(h: seq<Tables>, id: string, i: nat, j: nat)
    requires IsHistory(h) && Stays(h, id, i, j)
    ensures h[j].intents[id].authority == h[i].intents[id].authority
    decreases j - i
  {
    hide IsHistory;
    if i < j {
      AuthorityNeverChanges(h, id, i, j - 1);
      IntentStep(h, id, j - 1);
    }
  }

  /**
   From the moment an intent is frozen until it is retired, its authority and its set of
   targets are constant, and it is frozen or materialized all the time.
   */
  lemma {:induction false} FrozenUntilRetired(h: seq<Tables>, id: string, i: nat, j: nat)
    requires IsHistory(h) && Stays(h, id, i, j)
    requires Holds(h[i].intents[id].state) && h[j].intents[id].state != Retired
    ensures Holds(h[j].intents[id].state)
    ensures h[j].intents[id].authority == h[i].intents[id].authority
    ensures TargetsOf(h[j], id) == TargetsOf(h[i], id)
    decreases j - i
  {
    hide IsHistory, TargetsOf;
    if i < j {
      IntentStep(h, id, j - 1);
      FrozenUntilRetired(h, id, i, j - 1);
    }
  }

  /** And once it is materialized, this holds for as long as the row is there. */
  lemma {:induction false} MaterializedForever(h: seq<Tables>, id: string, i: nat, j: nat)
    requires IsHistory(h) && Stays(h, id, i, j) && h[i].intents[id].state == Materialized
    ensures h[j].intents[id].state == Materialized
    ensures h[j].intents[id].authority == h[i].intents[id].authority && TargetsOf(h[j], id) == TargetsOf(h[i], id)
    decreases j - i
  {
    hide IsHistory, TargetsOf;
    if i < j {
      MaterializedForever(h, id, i, j - 1);
      IntentStep(h, id, j - 1);
    }
  }

  /** A retired intent stays retired. */
  lemma {:induction false} RetiredForever(h: seq<Tables>, id: string, i: nat, j: nat)
    requires IsHistory(h) && Stays(h, id, i, j) && h[i].intents[id].state == Retired
    ensures h[j].intents[id].state == Retired
    decreases j - i
  {
    hide IsHistory;
    if i < j {
      RetiredForever(h, id, i, j - 1);
      IntentStep(h, id, j - 1);
    }
  }

  /** An intent never has more than one target: one type is allowed, and one target of a type. */
  lemma AtMostOneTarget(h: seq<Tables>, i: nat, p: string, q: string)
    requires IsHistory(h) && i < |h| && p in h[i].targets && q in h[i].targets
    requires h[i].targets[p].intentId == h[i].targets[q].intentId
    ensures p == q
  {
    hide Next, IsHistory;
    AlwaysConsistent(h, i);
  }

  /**
   When an intent without a target takes one: exactly when it is neither frozen nor
   materialized, so a retired intent still does.
   */
  lemma TakesTargetIff(t: Tables, n: Target)
    requires Consistent(t) && n.intentId in t.intents && TargetsOf(t, n.intentId) == map[]
    requires n.id !in t.targets && n.ordinal >= 0 && n.targetType == "WHATSAPP_RECIPIENT_ENDPOINT"
    ensures Accepted(t, InsertTarget(n)) <==> !Holds(t.intents[n.intentId].state)
  {
    hide KeysMatch, UniqueIntents, TargetRows, AgentRows, RunRows;
    FirstTargetFits(t, n);
    var u := t.(targets := t.targets[n.id := n]);
    assert Effect(t, InsertTarget(n)) == u;
    assert Consistent(u) <==> KeysMatch(u) && UniqueIntents(u) && TargetRows(u) && AgentRows(u) && RunRows(u);
  }

  lemma FirstTargetFits(t: Tables, n: Target)
    requires Consistent(t) && n.intentId in t.intents && TargetsOf(t, n.intentId) == map[]
    requires n.id !in t.targets && n.ordinal >= 0 && n.targetType == "WHATSAPP_RECIPIENT_ENDPOINT"
    ensures var u := t.(targets := t.targets[n.id := n]);
      KeysMatch(u) && UniqueIntents(u) && TargetRows(u) && AgentRows(u) && RunRows(u)
  {
    hide AgentRows, RunRows, UniqueIntents;
    forall k | k in t.targets
      ensures t.targets[k].intentId != n.intentId
    {
      assert t.targets[k].intentId == n.intentId ==> k in TargetsOf(t, n.intentId);
    }
    OtherTablesStay(t, t.targets[n.id := n]);
  }

  lemma OtherTablesStay(t: Tables, targets: map<string, Target>)
    requires UniqueIntents(t) && AgentRows(t) && RunRows(t)
    ensures var u := t.(targets := targets); UniqueIntents(u) && AgentRows(u) && RunRows(u)
  {
  }

  // ----- the bridge -----

  /** The execution intent that authorizes a scenario run. */
  function AuthorizedBy(t: Tables, run: string): Option<string> {
    if run in t.runs && t.runs[run].agentId.Some? && t.runs[run].agentId.value in t.agents
    then t.agents[t.runs[run].agentId.value].intentId
    else None
  }

  /** No execution intent authorizes two scenario runs. */
  lemma BridgeIsInjective(h: seq<Tables>, i: nat, p: string, q: string)
    requires IsHistory(h) && i < |h|
    requires AuthorizedBy(h[i], p).Some? && AuthorizedBy(h[i], p) == AuthorizedBy(h[i], q)
    ensures p == q
    ensures AuthorizedBy(h[i], p).value in h[i].intents
  {
    hide Next, IsHistory;
    AlwaysConsistent(h, i);
    assert h[i].runs[p].agentId == h[i].runs[q].agentId;
  }

  lemma BridgeStatement(t: Tables, c: Command, run: string)
    requires Consistent(t) && Accepted(t, c) && run in t.runs && run in Effect(t, c).runs
    ensures Effect(t, c).runs[run].agentId == t.runs[run].agentId
    ensures AuthorizedBy(Effect(t, c), run) == AuthorizedBy(t, run)
  {
    hide UniqueIntents, TargetRows;
    var u := Effect(t, c);
    if c.UpdateRun? && c.key != run {
      assert u.runs[run] == t.runs[run];
    }
    if t.runs[run].agentId.Some? {
      var a := t.runs[run].agentId.value;
      assert a in t.agents && a in u.agents;
      if c.UpdateAgent? && c.key != a {
        assert u.agents[a] == t.agents[a];
      }
    }
  }

  lemma BridgeStep(h: seq<Tables>, run: string, k: nat)
    requires IsHistory(h) && k + 1 < |h| && run in h[k].runs && run in h[k + 1].runs
    ensures AuthorizedBy(h[k + 1], run) == AuthorizedBy(h[k], run)
  {
    hide Permitted, Effect, Consistent, AuthorizedBy;
    AlwaysConsistent(h, k);
    assert Next(h[k], h[k + 1]);
    var c :| h[k + 1] == Execute(h[k], c);
    if Accepted(h[k], c) {
      BridgeStatement(h[k], c, run);
    }
  }

  ghost predicate RunStays(h: seq<Tables>, run: string, i: nat, j: nat) {
    i <= j < |h| && forall k | i <= k <= j :: run in h[k].runs
  }

  /** As long as a scenario run is there, what authorizes it is never bound anew. */
  lemma {:induction false} NeverRebound(h: seq<Tables>, run: string, i: nat, j: nat)
    requires IsHistory(h) && RunStays(h, run, i, j)
    ensures AuthorizedBy(h[j], run) == AuthorizedBy(h[i], run)
    decreases j - i
  {
    hide IsHistory, AuthorizedBy;
    if i < j {
      NeverRebound(h, run, i, j - 1);
      BridgeStep(h, run, j - 1);
    }
  }

  /**
   A run that is bridged to a materialized intent keeps its authority and its targets while
   it is there. Nobody can delete the intent under it, so no condition on deletions is left.
   */
  lemma BridgedRunIsFixed(h: seq<Tables>, run: string, i: nat, j: nat)
    requires IsHistory(h) && RunStays(h, run, i, j) && AuthorizedBy(h[i], run).Some?
    ensures AuthorizedBy(h[i], run).value in h[i].intents
    ensures h[i].intents[AuthorizedBy(h[i], run).value].state == Materialized ==>
      var id := AuthorizedBy(h[i], run).value;
      && AuthorizedBy(h[j], run) == Some(id) && id in h[j].intents
      && h[j].intents[id].state == Materialized
      && h[j].intents[id].authority == h[i].intents[id].authority
      && TargetsOf(h[j], id) == TargetsOf(h[i], id)
  {
    hide IsHistory, TargetsOf, AuthorizedBy;
    var id := AuthorizedBy(h[i], run).value;
    forall k: nat | i <= k <= j
      ensures id in h[k].intents && AuthorizedBy(h[k], run) == Some(id)
    {
      NeverRebound(h, run, i, k);
      BridgeIsInjective(h, k, run, run);
    }
    assert Stays(h, id, i, j);
    if h[i].intents[id].state == Materialized {
      MaterializedForever(h, id, i, j);
    }
  }
}
