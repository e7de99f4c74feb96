/**
 When each statement on execution intents, their targets and the bridge to scenario runs is accepted,
 said column by column: what the triggers, keys, checks and partial unique indexes leave of it together.
 */
module IntentStatements {
  import opened Common
  import opened IntentAuthority

  // ----- intents -----

  /** A new intent needs an idempotency key and a fingerprint of its own. */
  lemma IntentInsertIff(t: Tables, n: Intent)
    requires Consistent(t)
    ensures Accepted(t, InsertIntent(n)) <==>
      n.id !in t.intents && forall k | k in t.intents ::
        && t.intents[k].authority.idempotencyKey != n.authority.idempotencyKey
        && t.intents[k].authority.fingerprint != n.authority.fingerprint
  {
    hide KeysMatch, UniqueIntents, TargetRows, AgentRows, RunRows;
    if n.id !in t.intents {
      IntentInsertKeeps(t, n);
    }
  }

  lemma IntentInsertKeeps(t: Tables, n: Intent)
    requires Consistent(t) && n.id !in t.intents
    ensures var u := Effect(t, InsertIntent(n));
      && KeysMatch(u) && TargetRows(u) && AgentRows(u) && RunRows(u)
      && (UniqueIntents(u) <==> forall k | k in t.intents ::
            && t.intents[k].authority.idempotencyKey != n.authority.idempotencyKey
            && t.intents[k].authority.fingerprint != n.authority.fingerprint)
  {
    hide UniqueIntents;
    assert Effect(t, InsertIntent(n)) == t.(intents := t.intents[n.id := n]);
    UniqueIntentsWith(t, n);
  }

  lemma UniqueIntentsWith(t: Tables, n: Intent)
    requires UniqueIntents(t) && n.id !in t.intents
    ensures UniqueIntents(t.(intents := t.intents[n.id := n])) <==> forall k | k in t.intents ::
      && t.intents[k].authority.idempotencyKey != n.authority.idempotencyKey
      && t.intents[k].authority.fingerprint != n.authority.fingerprint
  {
    var intents := t.intents[n.id := n];
    assert intents[n.id] == n;
    assert forall k | k in t.intents :: k != n.id && intents[k] == t.intents[k];
  }

  /** The moves of an intent's state. */
  ghost predicate MayMove(from: State, to: State) {
    || from == to || from == Prepared
    || (from == Frozen && (to == Materialized || to == Retired))
  }

  /** An intent keeps its id and its authority, and its state only moves on. */
  lemma IntentUpdateIff(t: Tables, id: string, n: Intent)
    requires Consistent(t)
    ensures Accepted(t, UpdateIntent(id, n)) <==>
      id in t.intents && n.id == id && n.authority == t.intents[id].authority && MayMove(t.intents[id].state, n.state)
  {
    hide KeysMatch, UniqueIntents, TargetRows, AgentRows, RunRows;
    if id in t.intents {
      IntentKey(t, id);
      if n.id == id && n.authority == t.intents[id].authority {
        IntentUpdateKeeps(t, id, n);
      }
    }
  }

  lemma IntentKey(t: Tables, id: string)
    requires KeysMatch(t) && id in t.intents
    ensures t.intents[id].id == id
  {
  }

  lemma IntentUpdateKeeps(t: Tables, id: string, n: Intent)
    requires Consistent(t) && id in t.intents && n.id == id && n.authority == t.intents[id].authority
    ensures var u := Effect(t, UpdateIntent(id, n));
      KeysMatch(u) && UniqueIntents(u) && TargetRows(u) && AgentRows(u) && RunRows(u)
  {
    hide UniqueIntents, TargetRows, AgentRows, RunRows;
    var intents := (t.intents - {id})[n.id := n];
    assert Effect(t, UpdateIntent(id, n)) == t.(intents := intents);
    assert intents[id] == n && intents.Keys == t.intents.Keys;
    assert forall k | k in t.intents && k != id :: intents[k] == t.intents[k];
    SameKeysKeep(t, intents);
    SameAuthoritiesKeep(t, intents);
  }

  lemma SameKeysKeep(t: Tables, intents: map<string, Intent>)
    requires TargetRows(t) && AgentRows(t) && RunRows(t) && intents.Keys == t.intents.Keys
    ensures var u := t.(intents := intents); TargetRows(u) && AgentRows(u) && RunRows(u)
  {
  }

  lemma SameAuthoritiesKeep(t: Tables, intents: map<string, Intent>)
    requires UniqueIntents(t) && intents.Keys == t.intents.Keys
    requires forall k | k in intents :: intents[k].authority == t.intents[k].authority
    ensures UniqueIntents(t.(intents := intents))
  {
  }

  /** An intent goes only when no target and no agent intent names it. */
  lemma IntentDeleteIff(t: Tables, id: string)
    requires Consistent(t)
    ensures Accepted(t, DeleteIntent(id)) <==>
      && id in t.intents
      && (forall k | k in t.targets :: t.targets[k].intentId != id)
      && forall k | k in t.agents :: t.agents[k].intentId != Some(id)
  {
    hide KeysMatch, UniqueIntents, TargetRows, AgentRows, RunRows;
    IntentDeleteKeeps(t, id);
  }

  lemma IntentDeleteKeeps(t: Tables, id: string)
    requires Consistent(t)
    ensures var u := Effect(t, DeleteIntent(id));
      && KeysMatch(u) && UniqueIntents(u) && RunRows(u)
      && (TargetRows(u) <==> forall k | k in t.targets :: t.targets[k].intentId != id)
      && (AgentRows(u) <==> forall k | k in t.agents :: t.agents[k].intentId != Some(id))
  {
  }

  // ----- targets -----

  /** A target is only ever added: the one endpoint of an intent that is prepared or retired. */
  lemma TargetInsertIff(t: Tables, n: Target)
    requires Consistent(t)
    ensures Accepted(t, InsertTarget(n)) <==>
      && n.id !in t.targets && n.targetType == "WHATSAPP_RECIPIENT_ENDPOINT" && n.ordinal >= 0
      && n.intentId in t.intents && (t.intents[n.intentId].state == Prepared || t.intents[n.intentId].state == Retired)
      && forall k | k in t.targets :: t.targets[k].intentId != n.intentId
  {
    hide KeysMatch, UniqueIntents, TargetRows, AgentRows, RunRows;
    if n.id !in t.targets {
      TargetInsertKeeps(t, n);
    }
  }

  lemma TargetInsertKeeps(t: Tables, n: Target)
    requires Consistent(t) && n.id !in t.targets
    ensures var u := Effect(t, InsertTarget(n));
      && KeysMatch(u) && UniqueIntents(u) && AgentRows(u) && RunRows(u)
      && (TargetRows(u) <==>
            && n.targetType == "WHATSAPP_RECIPIENT_ENDPOINT" && n.ordinal >= 0 && n.intentId in t.intents
            && forall k | k in t.targets :: t.targets[k].intentId != n.intentId)
  {
    hide AgentRows, RunRows, UniqueIntents, TargetRows;
    var u := t.(targets := t.targets[n.id := n]);
    assert Effect(t, InsertTarget(n)) == u;
    assert KeysMatch(u);
    OtherTablesStay(t, u.targets);
    TargetRowsIff(t, n);
  }

  lemma TargetRowsIff(t: Tables, n: Target)
    requires TargetRows(t) && n.id !in t.targets
    ensures TargetRows(t.(targets := t.targets[n.id := n])) <==>
      && n.targetType == "WHATSAPP_RECIPIENT_ENDPOINT" && n.ordinal >= 0 && n.intentId in t.intents
      && forall k | k in t.targets :: t.targets[k].intentId != n.intentId
  {
    var u := t.(targets := t.targets[n.id := n]);
    assert u.targets[n.id] == n;
    assert forall k | k in t.targets :: k != n.id && u.targets[k] == t.targets[k];
    assert forall k | k in t.targets :: t.targets[k].targetType == "WHATSAPP_RECIPIENT_ENDPOINT";
  }

  lemma TargetIsImmutable(t: Tables, id: string, n: Target)
    ensures !Accepted(t, UpdateTarget(id, n)) && !Accepted(t, DeleteTarget(id))
  {
  }

  // ----- agent intents -----

  /** The bridge of an agent intent: an execution intent with its fingerprint, and no other bridge to it. */
  ghost predicate MayBridge(t: Tables, id: string, n: Agent) {
    && (n.intentId.None? <==> n.fingerprint.None?)
    && (n.intentId.Some? ==>
          && n.intentId.value in t.intents
          && forall k | k in t.agents && k != id :: t.agents[k].intentId != n.intentId)
  }

  lemma AgentInsertIff(t: Tables, n: Agent)
    requires Consistent(t)
    ensures Accepted(t, InsertAgent(n)) <==> n.id !in t.agents && MayBridge(t, n.id, n)
  {
    hide KeysMatch, UniqueIntents, TargetRows, AgentRows, RunRows, MayBridge;
    if n.id !in t.agents {
      AgentInsertKeeps(t, n);
    }
  }

  lemma AgentInsertKeeps(t: Tables, n: Agent)
    requires Consistent(t) && n.id !in t.agents
    ensures var u := Effect(t, InsertAgent(n));
      KeysMatch(u) && UniqueIntents(u) && TargetRows(u) && RunRows(u) && (AgentRows(u) <==> MayBridge(t, n.id, n))
  {
    hide AgentRows, MayBridge;
    var agents := t.agents[n.id := n];
    assert Effect(t, InsertAgent(n)) == t.(agents := agents);
    AgentRowsWith(t, n);
  }

  lemma AgentRowsWith(t: Tables, n: Agent)
    requires AgentRows(t) && n.id !in t.agents
    ensures AgentRows(t.(agents := t.agents[n.id := n])) <==> MayBridge(t, n.id, n)
  {
    var agents := t.agents[n.id := n];
    assert agents[n.id] == n;
    assert forall k | k in t.agents :: k != n.id && agents[k] == t.agents[k];
  }

  /**
   An agent intent is never bound anew; once bridged its request is fixed; its id may change
   while no run names it.
   */
  lemma AgentUpdateIff(t: Tables, id: string, n: Agent)
    requires Consistent(t)
    ensures Accepted(t, UpdateAgent(id, n)) <==>
      && id in t.agents
      && n.intentId == t.agents[id].intentId && n.fingerprint == t.agents[id].fingerprint
      && (t.agents[id].intentId.Some? ==> n.request == t.agents[id].request)
      && (n.id == id || (n.id !in t.agents && forall r | r in t.runs :: t.runs[r].agentId != Some(id)))
  {
    hide KeysMatch, UniqueIntents, TargetRows, AgentRows, RunRows;
    if id in t.agents && (n.id == id || n.id !in t.agents)
       && n.intentId == t.agents[id].intentId && n.fingerprint == t.agents[id].fingerprint {
      AgentUpdateKeeps(t, id, n);
    }
  }

  lemma AgentUpdateKeeps(t: Tables, id: string, n: Agent)
    requires Consistent(t) && id in t.agents && (n.id == id || n.id !in t.agents)
    requires n.intentId == t.agents[id].intentId && n.fingerprint == t.agents[id].fingerprint
    ensures var u := Effect(t, UpdateAgent(id, n));
      && KeysMatch(u) && UniqueIntents(u) && TargetRows(u) && AgentRows(u)
      && (RunRows(u) <==> n.id == id || forall r | r in t.runs :: t.runs[r].agentId != Some(id))
  {
    hide AgentRows, RunRows;
    var agents := (t.agents - {id})[n.id := n];
    assert Effect(t, UpdateAgent(id, n)) == t.(agents := agents);
    AgentReplaced(t.agents, id, n);
    AgentRowsStay(t, agents, id, n);
    RunRowsIff(t, agents, id, n);
  }

  ghost predicate Replaced(before: map<string, Agent>, after: map<string, Agent>, id: string, n: Agent) {
    && (forall k :: k in after <==> k == n.id || (k in before && k != id))
    && (forall k | k in before && k != id :: k != n.id && after[k] == before[k])
    && n.id in after && after[n.id] == n
  }

  lemma AgentReplaced(agents: map<string, Agent>, id: string, n: Agent)
    requires n.id == id || n.id !in agents
    ensures Replaced(agents, (agents - {id})[n.id := n], id, n)
  {
  }

  lemma AgentRowsStay(t: Tables, agents: map<string, Agent>, id: string, n: Agent)
    requires AgentRows(t) && id in t.agents && Replaced(t.agents, agents, id, n)
    requires n.intentId == t.agents[id].intentId && n.fingerprint == t.agents[id].fingerprint
    ensures AgentRows(t.(agents := agents))
  {
  }

  lemma RunRowsIff(t: Tables, agents: map<string, Agent>, id: string, n: Agent)
    requires RunRows(t) && id in t.agents && Replaced(t.agents, agents, id, n)
    ensures RunRows(t.(agents := agents)) <==> n.id == id || forall r | r in t.runs :: t.runs[r].agentId != Some(id)
  {
  }

  lemma AgentDeleteIff(t: Tables, id: string)
    requires Consistent(t)
    ensures Accepted(t, DeleteAgent(id)) <==>
      id in t.agents && forall r | r in t.runs :: t.runs[r].agentId != Some(id)
  {
    hide KeysMatch, UniqueIntents, TargetRows, AgentRows, RunRows;
    AgentDeleteKeeps(t, id);
  }

  lemma AgentDeleteKeeps(t: Tables, id: string)
    requires Consistent(t)
    ensures var u := Effect(t, DeleteAgent(id));
      && KeysMatch(u) && UniqueIntents(u) && TargetRows(u) && AgentRows(u)
      && (RunRows(u) <==> forall r | r in t.runs :: t.runs[r].agentId != Some(id))
  {
  }

  // ----- scenario runs -----

  lemma RunInsertIff(t: Tables, n: ScenarioRun)
    requires Consistent(t)
    ensures Accepted(t, InsertRun(n)) <==>
      && n.id !in t.runs
      && (n.agentId.Some? ==>
            n.agentId.value in t.agents && forall r | r in t.runs :: t.runs[r].agentId != n.agentId)
  {
    hide KeysMatch, UniqueIntents, TargetRows, AgentRows, RunRows;
    if n.id !in t.runs {
      RunInsertKeeps(t, n);
    }
  }

  lemma RunInsertKeeps(t: Tables, n: ScenarioRun)
    requires Consistent(t) && n.id !in t.runs
    ensures var u := Effect(t, InsertRun(n));
      && KeysMatch(u) && UniqueIntents(u) && TargetRows(u) && AgentRows(u)
      && (RunRows(u) <==> (n.agentId.Some? ==>
            n.agentId.value in t.agents && forall r | r in t.runs :: t.runs[r].agentId != n.agentId))
  {
    hide RunRows;
    var runs := t.runs[n.id := n];
    assert Effect(t, InsertRun(n)) == t.(runs := runs);
    RunRowsWith(t, n);
  }

  lemma RunRowsWith(t: Tables, n: ScenarioRun)
    requires RunRows(t) && n.id !in t.runs
    ensures RunRows(t.(runs := t.runs[n.id := n])) <==>
      (n.agentId.Some? ==>
         n.agentId.value in t.agents && forall r | r in t.runs :: t.runs[r].agentId != n.agentId)
  {
    var runs := t.runs[n.id := n];
    assert runs[n.id] == n;
    assert forall k | k in t.runs :: k != n.id && runs[k] == t.runs[k];
  }

  /** A run keeps its agent intent; nothing else of it is guarded. */
  lemma RunChangeIff(t: Tables, id: string, n: ScenarioRun)
    requires Consistent(t)
    ensures Accepted(t, UpdateRun(id, n)) <==>
      id in t.runs && n.agentId == t.runs[id].agentId && (n.id == id || n.id !in t.runs)
    ensures Accepted(t, DeleteRun(id)) <==> id in t.runs
  {
    hide KeysMatch, UniqueIntents, TargetRows, AgentRows, RunRows;
    if id in t.runs && (n.id == id || n.id !in t.runs) && n.agentId == t.runs[id].agentId {
      RunUpdateKeeps(t, id, n);
    }
    RunDeleteKeeps(t, id);
  }

  lemma RunUpdateKeeps(t: Tables, id: string, n: ScenarioRun)
    requires Consistent(t) && id in t.runs && (n.id == id || n.id !in t.runs) && n.agentId == t.runs[id].agentId
    ensures var u := Effect(t, UpdateRun(id, n));
      KeysMatch(u) && UniqueIntents(u) && TargetRows(u) && AgentRows(u) && RunRows(u)
  {
    hide RunRows;
    var runs := (t.runs - {id})[n.id := n];
    assert Effect(t, UpdateRun(id, n)) == t.(runs := runs);
    RunRowsStay(t, id, n);
  }

  lemma RunRowsStay(t: Tables, id: string, n: ScenarioRun)
    requires RunRows(t) && id in t.runs && (n.id == id || n.id !in t.runs) && n.agentId == t.runs[id].agentId
    ensures RunRows(t.(runs := (t.runs - {id})[n.id := n]))
  {
    var runs := (t.runs - {id})[n.id := n];
    assert forall k :: k in runs <==> k == n.id || (k in t.runs && k != id);
    assert forall k | k in t.runs && k != id :: k != n.id && runs[k] == t.runs[k];
    assert runs[n.id] == n;
  }

  lemma RunDeleteKeeps(t: Tables, id: string)
    requires Consistent(t)
    ensures var u := Effect(t, DeleteRun(id));
      KeysMatch(u) && UniqueIntents(u) && TargetRows(u) && AgentRows(u) && RunRows(u)
  {
  }
}
