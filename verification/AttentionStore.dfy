/**
 The attention engine's store: one table of assessment rows, created, refreshed,
 superseded, suppressed and acknowledged. Rows of one tenant and signal key form the
 history of a signal. An id is any number that is free: only the order of ids matters, and
 they are minted at random. A snapshot stands for its own fingerprint; reason codes, stored
 sorted and without repetition, are a set.
 */
module AttentionStore {
  import opened Common
  import opened AttentionScore
  import opened TextScan

  const COOLDOWN := 6 * HOUR
  const MAX_SUPPRESSION := 30 * DAY
  const COOLDOWN_MARGIN := 150_000
  const OBLIGATION_PREFIX := "obligation-instance:"
  const ANOMALY_PREFIX := "missing-step-anomaly:"

  datatype Error =
    | SecretSourceExcluded | SensitivityInvalid | Required | TooLong
    | InstanceNotFound | DefinitionInvalid | DefinitionInactive
    | AnomalyNotFound | AnomalyNotActive | AnomalySourceInvalid | AnomalyActorInvalid
    | AnomalySequenceMissing | AnomalySequenceInvalid | AnomalyIdMissing
    | AssessmentNotFound | AssessmentStale | OwnerAmbiguous | OwnerAuthorityRequired
    | SuppressionWindowInvalid

  datatype Sensitivity = Normal | Private | Secret | Unknown

  datatype Status = Active | Acknowledged | Suppressed | Superseded

  datatype SourceType = ObligationInstance | MemoryClaimAnomaly

  datatype Signal = Signal(tenant: string, key: string)

  datatype Snapshot =
    | ObligationSnapshot(instanceId: string, definitionId: string, sourceState: string, ratio: real,
                         expectedBy: Instant, deadline: Instant, updatedAt: Instant)
    | AnomalySnapshot(claimId: string, anomalyId: string, sequenceId: string, confidence: real, support: real,
                      occurrences: Option<int>, lastObservedAt: Instant, validUntil: Option<Instant>)

  datatype Row = Row(
    id: nat,
    signal: Signal,
    snapshot: Snapshot,
    sourceType: SourceType,
    sourceRef: string,
    sourceState: string,
    score: int,
    scoreClass: Class,
    effectiveClass: Class,
    components: Components,
    reasons: set<string>,
    sensitivity: Sensitivity,
    cooldownUntil: Option<Instant>,
    suppressedUntil: Option<Instant>,
    suppressionReason: Option<string>,
    suppressedBy: Option<string>,
    acknowledgedAt: Option<Instant>,
    acknowledgedBy: Option<string>,
    decisionRef: Option<string>,
    status: Status,
    supersedes: Option<nat>,
    createdAt: Instant,
    updatedAt: Instant)

  type Rows = map<nat, Row>

  // ----- text -----

  ghost predicate Unspaced(s: string) {
    forall i | 0 <= i < |s| :: !IsSpace(s[i])
  }

  function WordLength(s: string): (n: nat)
    ensures n <= |s|
    ensures forall i | 0 <= i < n :: !IsSpace(s[i])
    ensures n < |s| ==> IsSpace(s[n])
  {
    if s == "" || IsSpace(s[0]) then 0 else 1 + WordLength(s[1..])
  }

  /** str.split() without an argument. */
  function Words(s: string): seq<string>
    decreases |s|
  {
    if s == "" then []
    else if IsSpace(s[0]) then Words(s[1..])
    else [s[..WordLength(s)]] + Words(s[WordLength(s)..])
  }

  function JoinWords(words: seq<string>): string {
    if words == [] then ""
    else if |words| == 1 then words[0]
    else words[0] + " " + JoinWords(words[1..])
  }

  function Normalize(s: string): string {
    JoinWords(Words(s))
  }

  /** _bounded: whitespace collapsed, then non-empty and within the limit. */
  function Bounded(s: string, limit: nat): Result<string, Error> {
    var n := Normalize(s);
    if n == "" then Err(Required) else if |n| > limit then Err(TooLong) else Ok(n)
  }

  /** An unspaced text is its own normal form. */
  lemma NormalizeUnspaced(s: string)
    requires Unspaced(s)
    ensures Normalize(s) == s
  {
    if s != "" {
      assert WordLength(s) == |s|;
      assert s[..|s|] == s && s[|s|..] == "";
      assert Words(s) == [s];
    }
  }

  /** A trailing space disappears. */
  lemma NormalizeTrailingSpace(s: string)
    requires Unspaced(s) && s != ""
    ensures Normalize(s + " ") == s
  {
    var t := s + " ";
    assert t[0] == s[0];
    var n := WordLength(t);
    assert forall i | 0 <= i < |s| :: t[i] == s[i];
    assert t[|s|] == ' ';
    assert n == |s|;
    assert t[..n] == s && t[n..] == " ";
    assert " "[1..] == "";
    assert Words(" ") == [];
    assert Words(t) == [s];
  }

  /** The first character survives normalization. */
  lemma NormalizeKeepsHead(s: string)
    requires s != "" && !IsSpace(s[0])
    ensures Normalize(s) != "" && Normalize(s)[0] == s[0]
  {
  }

  // ----- pure steps on rows -----

  predicate Of(rows: Rows, id: nat, s: Signal) {
    id in rows && rows[id].signal == s
  }

  /** Whether `a` comes before `b` in the order that finds the latest assessment. */
  predicate Later(a: Row, b: Row) {
    a.updatedAt > b.updatedAt || (a.updatedAt == b.updatedAt && a.id >= b.id)
  }

  ghost predicate IsLatest(rows: Rows, s: Signal, latest: Option<nat>) {
    match latest
    case None => forall id | id in rows :: rows[id].signal != s
    case Some(l) => Of(rows, l, s) && forall id | Of(rows, id, s) :: Later(rows[l], rows[id])
  }

  predicate IsExact(rows: Rows, id: nat, s: Signal, snapshot: Snapshot) {
    Of(rows, id, s) && rows[id].snapshot == snapshot
  }

  /** _cap_owner_actionability, on the class. */
  function Capped(c: Class, ownerPrivate: bool, nonActionable: bool): Class {
    if c == OwnerSuggestion && (ownerPrivate || nonActionable) then ReasoningQueue else c
  }

  /** _cap_owner_actionability, on the reasons: the second cap sees what the first one left. */
  function CapReasons(c: Class, ownerPrivate: bool, nonActionable: bool): set<string> {
    if c != OwnerSuggestion then {}
    else if ownerPrivate then {"OWNER_PRIVATE_ACTIONABILITY_CAP"}
    else if nonActionable then {"OWNER_NON_ACTIONABLE_CAP"}
    else {}
  }

  predicate SuppressedAt(r: Row, now: Instant) {
    r.suppressedUntil.Some? && r.suppressedUntil.value > now
  }

  /** _refresh_exact. */
  function Refreshed(r: Row, ownerPrivate: bool, nonActionable: bool, now: Instant): Row {
    if r.status == Acknowledged then r
    else
      var kept := r.reasons - {"OWNER_SUPPRESSED", "OWNER_PRIVATE_ACTIONABILITY_CAP", "OWNER_NON_ACTIONABLE_CAP"};
      var effective, status, reasons :=
        if SuppressedAt(r, now) then Ignore else Capped(r.scoreClass, ownerPrivate, nonActionable),
        if SuppressedAt(r, now) then Suppressed else Active,
        if SuppressedAt(r, now) then kept + {"OWNER_SUPPRESSED"}
        else kept + CapReasons(r.scoreClass, ownerPrivate, nonActionable);
      if r.effectiveClass != effective || r.status != status || r.reasons != reasons
      then r.(effectiveClass := effective, status := status, reasons := reasons, updatedAt := now)
      else r
  }

  /** What the two assess functions hand to persistence. */
  datatype Assessment = Assessment(
    tenant: string,
    signalKey: string,
    sourceType: SourceType,
    sourceRef: string,
    sourceState: string,
    snapshot: Snapshot,
    base: Components,
    sensitivity: Sensitivity,
    ownerPrivate: bool,
    nonActionable: bool)

  function Validated(a: Assessment): Result<(Signal, string), Error> {
    if a.sensitivity == Secret then Err(SecretSourceExcluded)
    else if a.sensitivity == Unknown then Err(SensitivityInvalid)
    else match Bounded(a.signalKey, 128)
         case Err(e) => Err(e)
         case Ok(key) =>
           match Bounded(a.sourceRef, 160)
           case Err(e) => Err(e)
           case Ok(reference) => Ok((Signal(a.tenant, key), reference))
  }

  function Novelty(prior: Option<Row>, sourceState: string): int {
    if prior.Some? && prior.value.sourceState == sourceState then 400_000 else 1_000_000
  }

  /** The components of a row: base components clamped, with its novelty. */
  function RowComponents(a: Assessment, prior: Option<Row>): Components {
    a.base.(novelty := Novelty(prior, a.sourceState))
  }

  /** The row that a fresh snapshot creates after `prior`. */
  function FreshRow(a: Assessment, signal: Signal, reference: string, prior: Option<Row>, now: Instant, id: nat): Row {
    var c := RowComponents(a, prior);
    var score := Score(c);
    var class_ := ClassFor(score);
    var capped := Capped(class_, a.ownerPrivate, a.nonActionable);
    var base := Codes(c) + CapReasons(class_, a.ownerPrivate, a.nonActionable);
    var suppressed := prior.Some? && SuppressedAt(prior.value, now);
    var cooled := && !suppressed && prior.Some?
                  && prior.value.effectiveClass == OwnerSuggestion
                  && prior.value.cooldownUntil.Some? && prior.value.cooldownUntil.value > now
                  && score <= prior.value.score + COOLDOWN_MARGIN
                  && capped == OwnerSuggestion;
    var effective := if suppressed then Ignore else if cooled then ReasoningQueue else capped;
    Row(id, signal, a.snapshot, a.sourceType, reference, a.sourceState, score, class_, effective, c,
        base + (if suppressed then {"OWNER_SUPPRESSED"} else if cooled then {"DEDUP_SUPPRESSION_WINDOW"} else {}),
        a.sensitivity,
        if cooled then prior.value.cooldownUntil
        else if effective == OwnerSuggestion then Some(now + COOLDOWN) else None,
        if suppressed then prior.value.suppressedUntil else None,
        if suppressed then prior.value.suppressionReason else None,
        if suppressed then prior.value.suppressedBy else None,
        None, None, None,
        if suppressed then Suppressed else Active,
        if prior.Some? then Some(prior.value.id) else None,
        now, now)
  }

  function SupersededRow(r: Row, now: Instant): Row {
    if r.status == Active then r.(status := Superseded, updatedAt := now) else r
  }

  /** The rows after the prior row was superseded and before the new one is inserted. */
  function Supersede(rows: Rows, prior: Option<nat>, now: Instant): Rows
    requires prior.Some? ==> prior.value in rows
  {
    if prior.Some? then rows[prior.value := SupersededRow(rows[prior.value], now)] else rows
  }

  function RowAt(rows: Rows, id: Option<nat>): Option<Row>
    requires id.Some? ==> id.value in rows
  {
    if id.Some? then Some(rows[id.value]) else None
  }

  ghost predicate RefreshStep(rows: Rows, a: Assessment, now: Instant, id: nat, rows': Rows) {
    && Validated(a).Ok?
    && IsExact(rows, id, Validated(a).value.0, a.snapshot)
    && rows' == rows[id := Refreshed(rows[id], a.ownerPrivate, a.nonActionable, now)]
  }

  ghost predicate FreshStep(rows: Rows, a: Assessment, now: Instant, newId: nat, prior: Option<nat>, rows': Rows) {
    && Validated(a).Ok?
    && var (signal, reference) := Validated(a).value;
    && (forall id | id in rows :: !IsExact(rows, id, signal, a.snapshot))
    && IsLatest(rows, signal, prior)
    && newId !in rows
    && rows' == Supersede(rows, prior, now)[newId := FreshRow(a, signal, reference, RowAt(rows, prior), now, newId)]
  }

  function SuppressedRow(r: Row, until: Instant, reason: string, owner: string, reference: string, now: Instant): Row {
    r.(suppressedUntil := Some(until), suppressionReason := Some(reason), suppressedBy := Some(owner),
       decisionRef := Some(reference), status := Suppressed, effectiveClass := Ignore,
       reasons := r.reasons + {"OWNER_SUPPRESSED"}, updatedAt := now)
  }

  function AcknowledgedRow(r: Row, owner: string, reference: string, now: Instant): Row {
    r.(status := Acknowledged, acknowledgedAt := Some(now), acknowledgedBy := Some(owner),
       decisionRef := Some(reference), reasons := r.reasons + {"OWNER_ACKNOWLEDGED"}, updatedAt := now)
  }

  // ----- sources -----

  /** A state column: one of an enumeration whose members have no colon. */
  type StateText = s: string | ':' !in s witness ""

  datatype Definition = Definition(
    id: string, tenant: string, active: bool, secret: bool, confidence: real, relationship: bool, ownerDeclared: bool)

  datatype Instance = Instance(
    id: string, tenant: string, definitionId: string, state: StateText, reconciliationStatus: string,
    uncertaintyCode: Option<string>, sensitivity: Sensitivity, ratio: real, expectedBy: Instant,
    dueWindowEnd: Instant, extensionUntil: Option<Instant>, updatedAt: Instant)

  function SourceState(i: Instance): string {
    i.state + ":" + i.reconciliationStatus + ":"
    + (if i.uncertaintyCode.Some? && i.uncertaintyCode.value != "" then i.uncertaintyCode.value else "NONE")
  }

  /** The part of assess_obligation_attention before persistence. */
  function ObligationAssessment(instance: Option<Instance>, definition: Option<Definition>,
        now: Instant): Result<Assessment, Error>
  {
    if instance.None? then Err(InstanceNotFound)
    else if definition.None? || definition.value.tenant != instance.value.tenant then Err(DefinitionInvalid)
    else if !definition.value.active then Err(DefinitionInactive)
    else if instance.value.sensitivity == Secret || definition.value.secret then Err(SecretSourceExcluded)
    else
      var i, d := instance.value, definition.value;
      var deadline := if i.extensionUntil.Some? then i.extensionUntil.value else i.dueWindowEnd;
      Ok(Assessment(
        i.tenant, OBLIGATION_PREFIX + i.id, ObligationInstance, i.id, SourceState(i),
        ObligationSnapshot(i.id, d.id, SourceState(i), i.ratio, i.expectedBy, deadline, i.updatedAt),
        ObligationBase(i.state, d.ownerDeclared, d.relationship, d.confidence, deadline, now),
        i.sensitivity, false, false))
  }

  datatype Claim = Claim(
    id: string, actorId: string, active: bool, sensitivity: Sensitivity, predicate_: string, sourceQuality: string,
    anomalyType: Option<string>, evidenceClass: Option<string>, deniesAuthority: bool, secondKind: Option<string>,
    sequenceId: Option<string>, anomalyId: Option<string>, support: Option<real>, occurrences: Option<int>,
    confidence: real, lastObservedAt: Option<Instant>, createdAt: Instant, validUntil: Option<Instant>)

  /** The rows a missing-step assessment looks up, and the two controls on its sequence. */
  datatype Anomaly = Anomaly(
    claim: Option<Claim>, actorTenant: Option<string>, sequence: Option<Claim>, ownerPrivate: bool, nonActionable: bool)

  /** The part of assess_missing_step_attention before persistence. */
  function AnomalyAssessment(a: Anomaly, now: Instant): Result<Assessment, Error> {
    if a.claim.None? then Err(AnomalyNotFound)
    else if !a.claim.value.active then Err(AnomalyNotActive)
    else if a.claim.value.sensitivity == Secret then Err(SecretSourceExcluded)
    else
      var c := a.claim.value;
      if c.predicate_ != "context.pattern.sequence_anomaly" || c.sourceQuality != "DERIVED_PATTERN"
         || c.anomalyType != Some("MISSING_EXPECTED_STEP") || c.evidenceClass != Some("INFERRED") || !c.deniesAuthority
      then Err(AnomalySourceInvalid)
      else if a.actorTenant.None? then Err(AnomalyActorInvalid)
      else if c.sequenceId.None? || c.sequenceId.value == "" then Err(AnomalySequenceMissing)
      else if a.sequence.None? || a.sequence.value.actorId != c.actorId || !a.sequence.value.active
              || a.sequence.value.predicate_ != "context.pattern.event_sequence"
              || a.sequence.value.sourceQuality != "DERIVED_PATTERN" || a.sequence.value.sensitivity == Secret
      then Err(AnomalySequenceInvalid)
      else if c.anomalyId.None? || c.anomalyId.value == "" then Err(AnomalyIdMissing)
      else
        var sequence := a.sequence.value;
        var observedAt := if c.lastObservedAt.Some? then c.lastObservedAt.value else c.createdAt;
        var support := if sequence.support.Some? then ClampUnit(sequence.support.value) else 0.0;
        Ok(Assessment(
          a.actorTenant.value, ANOMALY_PREFIX + c.anomalyId.value, MemoryClaimAnomaly, c.id,
          "ACTIVE:" + c.anomalyId.value,
          AnomalySnapshot(c.id, c.anomalyId.value, sequence.id, c.confidence, support, sequence.occurrences,
                          observedAt, c.validUntil),
          MissingStepBase(c.secondKind, c.confidence, Stability(sequence.support, sequence.occurrences),
            observedAt, now),
          c.sensitivity, a.ownerPrivate, a.nonActionable))
  }

  // ----- the store -----

  class Store {
    var rows: Rows

    constructor ()
      ensures rows == map[]
    {
      rows := map[];
    }

    /** _latest_assessment: newest update first, then greatest id. */
    method LatestAssessment(s: Signal) returns (latest: Option<nat>)
      requires forall id | id in rows :: rows[id].id == id
      ensures IsLatest(rows, s, latest)
    {
      latest := None;
      var rest := rows.Keys;
      while rest != {}
        invariant rest <= rows.Keys
        invariant latest.None? ==> forall id | id in rows && id !in rest :: rows[id].signal != s
        invariant latest.Some? ==>
          && Of(rows, latest.value, s)
          && forall id | Of(rows, id, s) && id !in rest :: Later(rows[latest.value], rows[id])
        decreases |rest|
      {
        var id :| id in rest;
        rest := rest - {id};
        if rows[id].signal == s && (latest.None? || Later(rows[id], rows[latest.value])) {
          latest := Some(id);
        }
      }
    }

    /** _persist_assessment: refresh the row of this snapshot, or supersede the latest one and insert. */
    method Persist(a: Assessment, now: Instant, newId: nat) returns (r: Result<(nat, bool), Error>)
      requires newId !in rows && forall id | id in rows :: rows[id].id == id
      modifies this
      ensures r.Err? <==> Validated(a).Err?
      ensures r.Err? ==> rows == old(rows) && r.error == Validated(a).error
      ensures r.Ok? && !r.value.1 ==> RefreshStep(old(rows), a, now, r.value.0, rows)
      ensures r.Ok? && r.value.1 ==>
        && r.value.0 == newId
        && exists prior :: FreshStep(old(rows), a, now, newId, prior, rows)
    {
      if Validated(a).Err? {
        return Err(Validated(a).error);
      }
      var (signal, reference) := Validated(a).value;
      if exact :| exact in rows && IsExact(rows, exact, signal, a.snapshot) {
        rows := rows[exact := Refreshed(rows[exact], a.ownerPrivate, a.nonActionable, now)];
        return Ok((exact, false));
      }
      var prior := LatestAssessment(signal);
      var row := FreshRow(a, signal, reference, RowAt(rows, prior), now, newId);
      if prior.Some? && rows[prior.value].status == Active {
        rows := rows[prior.value := rows[prior.value].(status := Superseded, updatedAt := now)];
      }
      assert rows == Supersede(old(rows), prior, now);
      rows := rows[newId := row];
      assert FreshStep(old(rows), a, now, newId, prior, rows);
      r := Ok((newId, true));
    }

    method AssessObligation(instance: Option<Instance>, definition: Option<Definition>, now: Instant, newId: nat)
        returns (r: Result<(nat, bool), Error>)
      requires newId !in rows && forall id | id in rows :: rows[id].id == id
      modifies this
      ensures Answers(old(rows), ObligationAssessment(instance, definition, now), now, newId, rows, r)
    {
      match ObligationAssessment(instance, definition, now) {
        case Err(e) => r := Err(e);
        case Ok(a) => r := Persist(a, now, newId);
      }
    }

    method AssessMissingStep(anomaly: Anomaly, now: Instant, newId: nat) returns (r: Result<(nat, bool), Error>)
      requires newId !in rows && forall id | id in rows :: rows[id].id == id
      modifies this
      ensures Answers(old(rows), AnomalyAssessment(anomaly, now), now, newId, rows, r)
    {
      match AnomalyAssessment(anomaly, now) {
        case Err(e) => r := Err(e);
        case Ok(a) => r := Persist(a, now, newId);
      }
    }

    /** suppress_attention_assessment; `owners` are the tenant's active owner actors. */
    method Suppress(id: nat, owners: set<string>, actor: string, decisionRef: string, until: Instant,
          reasonCode: string, now: Instant)
        returns (r: Result<Row, Error>)
      modifies this
      ensures r.Err? ==> rows == old(rows)
      ensures r.Ok? ==> SuppressStep(old(rows), id, until, now, rows) && r.value == rows[id]
      ensures r.Ok? <==>
        && id in old(rows) && old(rows)[id].status != Superseded
        && Bounded(actor, 120).Ok? && owners == {Bounded(actor, 120).value}
        && Bounded(decisionRef, 240).Ok? && Bounded(reasonCode, 64).Ok?
        && now < until <= now + MAX_SUPPRESSION
      ensures r.Ok? ==> rows == old(rows)[id := r.value]
      ensures r.Ok? ==> r.value == old(rows)[id].(
        suppressedUntil := Some(until),
        suppressedBy := Some(Bounded(actor, 120).value),
        suppressionReason := Some(Bounded(reasonCode, 64).value),
        decisionRef := Some(Bounded(decisionRef, 240).value),
        status := Suppressed,
        effectiveClass := Ignore,
        reasons := old(rows)[id].reasons + {"OWNER_SUPPRESSED"},
        updatedAt := now)
      ensures r == Err(AssessmentNotFound) <==> id !in old(rows)
      ensures r == Err(AssessmentStale) <==> id in old(rows) && old(rows)[id].status == Superseded
      ensures r == Err(SuppressionWindowInvalid) <==>
        && id in old(rows) && old(rows)[id].status != Superseded
        && Bounded(actor, 120).Ok? && owners == {Bounded(actor, 120).value}
        && Bounded(decisionRef, 240).Ok? && Bounded(reasonCode, 64).Ok?
        && (until <= now || until - now > 2_592_000_000_000)
    {
      if id !in rows {
        return Err(AssessmentNotFound);
      }
      if rows[id].status == Superseded {
        return Err(AssessmentStale);
      }
      var owner := RequireOwner(owners, actor);
      if owner.Err? {
        return Err(owner.error);
      }
      var reference, reason := Bounded(decisionRef, 240), Bounded(reasonCode, 64);
      if reference.Err? {
        return Err(reference.error);
      }
      if reason.Err? {
        return Err(reason.error);
      }
      if until <= now || until > now + MAX_SUPPRESSION {
        return Err(SuppressionWindowInvalid);
      }
      rows := rows[id := SuppressedRow(rows[id], until, reason.value, owner.value, reference.value, now)];
      r := Ok(rows[id]);
    }

    /** acknowledge_attention_assessment; acknowledging twice changes nothing. */
    method Acknowledge(id: nat, owners: set<string>, actor: string, decisionRef: string, now: Instant)
        returns (r: Result<Row, Error>)
      modifies this
      ensures r.Err? ==> rows == old(rows)
      ensures r.Ok? ==> AcknowledgeStep(old(rows), id, now, rows) && r.value == rows[id]
      ensures r.Ok? <==>
        && id in old(rows) && old(rows)[id].status != Superseded
        && (old(rows)[id].status == Acknowledged
            || (&& Bounded(actor, 120).Ok? && owners == {Bounded(actor, 120).value}
                && Bounded(decisionRef, 240).Ok?))
      ensures r.Ok? ==> rows == old(rows)[id := r.value]
      ensures r.Ok? && old(rows)[id].status == Acknowledged ==> r.value == old(rows)[id]
      ensures r.Ok? && old(rows)[id].status != Acknowledged ==> r.value == old(rows)[id].(
        status := Status.Acknowledged,
        acknowledgedAt := Some(now),
        acknowledgedBy := Some(Bounded(actor, 120).value),
        decisionRef := Some(Bounded(decisionRef, 240).value),
        reasons := old(rows)[id].reasons + {"OWNER_ACKNOWLEDGED"},
        updatedAt := now)
      ensures r == Err(AssessmentNotFound) <==> id !in old(rows)
      ensures r == Err(AssessmentStale) <==> id in old(rows) && old(rows)[id].status == Superseded
    {
      if id !in rows {
        return Err(AssessmentNotFound);
      }
      if rows[id].status == Acknowledged {
        return Ok(rows[id]);
      }
      if rows[id].status == Superseded {
        return Err(AssessmentStale);
      }
      var owner := RequireOwner(owners, actor);
      if owner.Err? {
        return Err(owner.error);
      }
      var reference := Bounded(decisionRef, 240);
      if reference.Err? {
        return Err(reference.error);
      }
      rows := rows[id := AcknowledgedRow(rows[id], owner.value, reference.value, now)];
      r := Ok(rows[id]);
    }
  }

  /** _require_owner: exactly one owner, and it is the actor. */
  function RequireOwner(owners: set<string>, actor: string): (r: Result<string, Error>)
    ensures r.Ok? <==> Bounded(actor, 120).Ok? && owners == {Bounded(actor, 120).value}
    ensures r.Ok? ==> r.value == Bounded(actor, 120).value
    ensures Bounded(actor, 120).Err? <==> r == Err(Required) || r == Err(TooLong)
    ensures r == Err(OwnerAmbiguous) <==> Bounded(actor, 120).Ok? && |owners| != 1
  {
    match Bounded(actor, 120)
    case Err(e) => Err(e)
    case Ok(name) =>
      if |owners| != 1 then Err(OwnerAmbiguous)
      else if name !in owners then Err(OwnerAuthorityRequired)
      else
        assert owners == {name} by {
          assert |owners - {name}| == 0;
        }
        Ok(name)
  }

  /** How an assess call answers: it refreshes or creates a row exactly when its assessment is valid. */
  ghost predicate Answers(rows: Rows, a: Result<Assessment, Error>, now: Instant, newId: nat, rows': Rows,
        r: Result<(nat, bool), Error>)
  {
    match r
    case Err(e) =>
      && rows' == rows
      && (if a.Err? then e == a.error else Validated(a.value).Err? && e == Validated(a.value).error)
    case Ok((id, created)) =>
      && a.Ok?
      && (if created then id == newId && exists prior :: FreshStep(rows, a.value, now, newId, prior, rows')
          else RefreshStep(rows, a.value, now, id, rows'))
  }

  lemma AnswersAreSteps(rows: Rows, a: Result<Assessment, Error>, now: Instant, newId: nat, rows': Rows,
        r: Result<(nat, bool), Error>)
    requires Answers(rows, a, now, newId, rows', r)
    ensures Assessed(rows, a, now, newId, rows')
  {
  }

  /** An assessment leaves the rows alone, refreshes one, or creates one. */
  ghost predicate Assessed(rows: Rows, a: Result<Assessment, Error>, now: Instant, newId: nat, rows': Rows) {
    || rows' == rows
    || (a.Ok? && exists id :: RefreshStep(rows, a.value, now, id, rows'))
    || (a.Ok? && exists prior :: FreshStep(rows, a.value, now, newId, prior, rows'))
  }

  ghost predicate SuppressStep(rows: Rows, id: nat, until: Instant, now: Instant, rows': Rows) {
    && id in rows && rows[id].status != Superseded
    && now < until <= now + MAX_SUPPRESSION
    && exists reason, owner, reference ::
         rows' == rows[id := SuppressedRow(rows[id], until, reason, owner, reference, now)]
  }

  ghost predicate AcknowledgeStep(rows: Rows, id: nat, now: Instant, rows': Rows) {
    && id in rows && rows[id].status != Superseded
    && (if rows[id].status == Acknowledged then rows' == rows
        else exists owner, reference :: rows' == rows[id := AcknowledgedRow(rows[id], owner, reference, now)])
  }

  // ----- owner suggestions -----

  /** What the store sees around a row when it is asked for a suggestion. */
  datatype Surroundings = Surroundings(
    instances: map<string, Instance>,
    definitions: map<string, Definition>,
    claims: map<string, Claim>,
    withheld: set<string>)        // claims that are owner-private or owner-non-actionable

  datatype Candidate = Candidate(id: nat, signal: Signal, sourceType: SourceType, sourceRef: string, score: int,
        generatedAt: Instant)

  /** build_owner_suggestion_candidate, for a row that exists. */
  function Suggestion(r: Row, w: Surroundings, now: Instant): Option<Candidate> {
    if r.sensitivity == Secret || r.status != Active || SuppressedAt(r, now)
      || r.effectiveClass != OwnerSuggestion then None
    else if (match r.sourceType
             case ObligationInstance =>
               && r.sourceRef in w.instances
               && var i := w.instances[r.sourceRef];
               && i.sensitivity != Secret
               && i.definitionId in w.definitions
               && w.definitions[i.definitionId].active
               && !w.definitions[i.definitionId].secret
               && SourceState(i) == r.sourceState
             case MemoryClaimAnomaly =>
               && r.sourceRef in w.claims
               && w.claims[r.sourceRef].active
               && w.claims[r.sourceRef].sensitivity != Secret
               && r.sourceRef !in w.withheld)
    then Some(Candidate(r.id, r.signal, r.sourceType, r.sourceRef, r.score, now))
    else None
  }
}
