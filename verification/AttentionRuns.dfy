/**
 Whole lives of the attention store: any sequence of assessments, owner suppressions and
 acknowledgements, each with whatever the surrounding tables hold at that moment.
 */
module AttentionRuns {
  import opened Common
  import opened AttentionScore
  import opened AttentionStore
  import opened TextScan

  datatype Event =
    | AssessObligation(instance: Option<Instance>, definition: Option<Definition>, now: Instant, newId: nat)
    | AssessMissingStep(anomaly: Anomaly, now: Instant, newId: nat)
    | Suppress(id: nat, until: Instant, now: Instant)
    | Acknowledge(id: nat, now: Instant)

  function AssessmentOf(e: Event): Result<Assessment, Error>
    requires e.AssessObligation? || e.AssessMissingStep?
  {
    if e.AssessObligation? then ObligationAssessment(e.instance, e.definition, e.now)
    else AnomalyAssessment(e.anomaly, e.now)
  }

  /** One call of the store; a call that raises leaves the rows alone. */
  ghost predicate Next(rows: Rows, e: Event, rows': Rows) {
    match e
    case AssessObligation(_, _, now, newId) => Assessed(rows, AssessmentOf(e), now, newId, rows')
    case AssessMissingStep(_, now, newId) => Assessed(rows, AssessmentOf(e), now, newId, rows')
    case Suppress(id, until, now) => rows' == rows || SuppressStep(rows, id, until, now, rows')
    case Acknowledge(id, now) => rows' == rows || AcknowledgeStep(rows, id, now, rows')
  }

  /** What an assess call answers is a step of a life. */
  lemma AnsweredCallIsNext(rows: Rows, e: Event, rows': Rows, r: Result<(nat, bool), Error>)
    requires e.AssessObligation? || e.AssessMissingStep?
    requires Answers(rows, AssessmentOf(e), e.now, e.newId, rows', r)
    ensures Next(rows, e, rows')
  {
    AnswersAreSteps(rows, AssessmentOf(e), e.now, e.newId, rows', r);
  }

  /** One call of the store, whichever it is and whatever it answers, is a step of a life. */
  method Call(store: Store, e: Event, owners: set<string>, actor: string, decisionRef: string, reasonCode: string)
    requires WellKeyed(store.rows)
    requires e.AssessObligation? || e.AssessMissingStep? ==> e.newId !in store.rows
    modifies store
    ensures Next(old(store.rows), e, store.rows)
    ensures (e.Suppress? || e.Acknowledge?) && store.rows != old(store.rows) ==>
      && e.id in store.rows && Bounded(decisionRef, 240) == Ok(store.rows[e.id].decisionRef.value)
      && Bounded(actor, 120)
           == Ok((if e.Suppress? then store.rows[e.id].suppressedBy else store.rows[e.id].acknowledgedBy).value)
  {
    match e {
      case AssessObligation(instance, definition, now, newId) =>
        var r := store.AssessObligation(instance, definition, now, newId);
        AnsweredCallIsNext(old(store.rows), e, store.rows, r);
      case AssessMissingStep(anomaly, now, newId) =>
        var r := store.AssessMissingStep(anomaly, now, newId);
        AnsweredCallIsNext(old(store.rows), e, store.rows, r);
      case Suppress(id, until, now) =>
        var r := store.Suppress(id, owners, actor, decisionRef, until, reasonCode, now);
      case Acknowledge(id, now) =>
        var r := store.Acknowledge(id, owners, actor, decisionRef, now);
    }
  }

  datatype Life = Life(states: seq<Rows>, events: seq<Event>)

  /** A life starts with an empty store. */
  ghost predicate IsLife(l: Life) {
    && |l.states| == |l.events| + 1
    && l.states[0] == map[]
    && forall i {:trigger Next(l.states[i], l.events[i], l.states[i + 1])} | 0 <= i < |l.events| ::
         Next(l.states[i], l.events[i], l.states[i + 1])
  }

  ghost predicate WellKeyed(rows: Rows) {
    forall id | id in rows :: rows[id].id == id
  }

  // ----- what a suggestion for an obligation says -----

  /** The text names an owner state before its first colon. */
  predicate NamesOwnerState(text: string) {
    "PARTIALLY_SATISFIED:" <= text || "UNCONFIRMED_AFTER_DUE:" <= text
  }

  /** No row's effective class is above its score class, and obligation candidates name an owner state. */
  ghost predicate SoundRow(r: Row) {
    && Rank(r.effectiveClass) <= Rank(r.scoreClass)
    && (r.sourceType == ObligationInstance && r.scoreClass == OwnerSuggestion ==> NamesOwnerState(r.sourceState))
  }

  ghost predicate Sound(rows: Rows) {
    WellKeyed(rows) && forall id | id in rows :: SoundRow(rows[id])
  }

  /** What assessments promise about the rows they make: true of both kinds. */
  ghost predicate SoundAssessment(a: Assessment) {
    a.sourceType == ObligationInstance ==>
      NamesOwnerState(a.sourceState) || forall n :: ClassFor(Score(a.base.(novelty := n))) != OwnerSuggestion
  }

  lemma ObligationAssessmentIsSound(instance: Option<Instance>, definition: Option<Definition>, now: Instant)
    requires ObligationAssessment(instance, definition, now).Ok?
    ensures SoundAssessment(ObligationAssessment(instance, definition, now).value)
  {
    hide ObligationBase, Score, ClassFor;
    var i, d := instance.value, definition.value;
    var deadline := if i.extensionUntil.Some? then i.extensionUntil.value else i.dueWindowEnd;
    if CallsForOwner(i.state) {
      assert SourceState(i)[..|i.state| + 1] == i.state + ":";
    } else {
      forall n
        ensures ClassFor(Score(ObligationBase(i.state, d.ownerDeclared, d.relationship, d.confidence, deadline,
          now).(novelty := n))) != OwnerSuggestion
      {
        QuietStateStaysBelowSuggestion(i.state, d.ownerDeclared, d.relationship, d.confidence, deadline, now, n);
      }
    }
  }

  lemma AssessmentIsSound(e: Event)
    requires e.AssessObligation? || e.AssessMissingStep?
    requires AssessmentOf(e).Ok?
    ensures SoundAssessment(AssessmentOf(e).value)
  {
    if e.AssessObligation? {
      ObligationAssessmentIsSound(e.instance, e.definition, e.now);
    }
  }

  lemma FreshKeepsSound(rows: Rows, a: Assessment, now: Instant, newId: nat, prior: Option<nat>, rows': Rows)
    requires Sound(rows) && SoundAssessment(a) && FreshStep(rows, a, now, newId, prior, rows')
    ensures Sound(rows')
  {
    hide Score, ClassFor, Codes, Validated, FreshRow, NamesOwnerState, IsExact, Later, SoundAssessment;
    var (signal, reference) := Validated(a).value;
    FreshRowIsSound(a, signal, reference, RowAt(rows, prior), now, newId);
    assert forall id | id in rows :: SoundRow(Supersede(rows, prior, now)[id]);
  }

  lemma FreshRowIsSound(a: Assessment, signal: Signal, reference: string, prior: Option<Row>, now: Instant, id: nat)
    requires SoundAssessment(a)
    ensures SoundRow(FreshRow(a, signal, reference, prior, now, id))
    ensures FreshRow(a, signal, reference, prior, now, id).id == id
  {
    hide Score, ClassFor, Codes, NamesOwnerState;
    var row := FreshRow(a, signal, reference, prior, now, id);
    assert row.scoreClass == ClassFor(Score(a.base.(novelty := row.components.novelty)));
  }

  lemma UpdateKeepsSound(rows: Rows, id: nat, r: Row)
    requires Sound(rows) && id in rows && r.id == id && SoundRow(r)
    ensures Sound(rows[id := r])
  {
    hide SoundRow;
  }

  /** Refreshing, suppressing and acknowledging a row leave it sound. */
  lemma ChangedRowIsSound(r: Row)
    requires SoundRow(r)
    ensures forall ownerPrivate, nonActionable, now :: SoundRow(Refreshed(r, ownerPrivate, nonActionable, now))
    ensures forall until, reason, owner, reference, now ::
      SoundRow(SuppressedRow(r, until, reason, owner, reference, now))
    ensures forall owner, reference, now :: SoundRow(AcknowledgedRow(r, owner, reference, now))
  {
    hide NamesOwnerState;
  }

  lemma NextKeepsSound(rows: Rows, e: Event, rows': Rows)
    requires Sound(rows) && Next(rows, e, rows')
    ensures Sound(rows')
  {
    hide Sound, SoundRow, SoundAssessment, FreshRow, Refreshed, Validated, IsLatest, AssessmentOf;
    if rows' == rows {
    } else if e.Suppress? {
      var reason, owner, reference :|
        rows' == rows[e.id := SuppressedRow(rows[e.id], e.until, reason, owner, reference, e.now)];
      RowOfSound(rows, e.id);
      ChangedRowIsSound(rows[e.id]);
      UpdateKeepsSound(rows, e.id, rows'[e.id]);
    } else if e.Acknowledge? {
      var owner, reference :| rows' == rows[e.id := AcknowledgedRow(rows[e.id], owner, reference, e.now)];
      RowOfSound(rows, e.id);
      ChangedRowIsSound(rows[e.id]);
      UpdateKeepsSound(rows, e.id, rows'[e.id]);
    } else if prior :| FreshStep(rows, AssessmentOf(e).value, e.now, e.newId, prior, rows') {
      AssessmentIsSound(e);
      FreshKeepsSound(rows, AssessmentOf(e).value, e.now, e.newId, prior, rows');
    } else {
      var id :| RefreshStep(rows, AssessmentOf(e).value, e.now, id, rows');
      RowOfSound(rows, id);
      ChangedRowIsSound(rows[id]);
      RefreshedId(rows[id], AssessmentOf(e).value, e.now);
      UpdateKeepsSound(rows, id, rows'[id]);
    }
  }

  lemma RowOfSound(rows: Rows, id: nat)
    requires Sound(rows) && id in rows
    ensures rows[id].id == id && SoundRow(rows[id])
  {
    hide SoundRow;
  }

  lemma RefreshedId(r: Row, a: Assessment, now: Instant)
    ensures Refreshed(r, a.ownerPrivate, a.nonActionable, now).id == r.id
  {
  }

  lemma {:induction false} AlwaysSound(l: Life, i: nat)
    requires IsLife(l) && i < |l.states|
    ensures Sound(l.states[i])
  {
    if i > 0 {
      var k := i - 1;
      AlwaysSound(l, k);
      assert Next(l.states[k], l.events[k], l.states[k + 1]);
      NextKeepsSound(l.states[k], l.events[k], l.states[k + 1]);
    }
  }

  /** The state before the first colon can be read back. */
  lemma StateIsDecodable(state: StateText, rest: string, named: string)
    requires ':' !in named
    requires named + ":" <= state + ":" + rest
    ensures state == named
  {
    var text := state + ":" + rest;
    assert text[|state|] == ':';
    assert text[|named|] == (named + ":")[|named|] == ':';
    assert forall i | 0 <= i < |named| :: text[i] == named[i];
    assert forall i | 0 <= i < |state| :: text[i] == state[i];
    assert |state| == |named|;
  }

  /**
   Whenever a suggestion is returned for an obligation, that obligation is now partially
   satisfied or unconfirmed after its due date, whatever happened before and whatever the
   confidence, the deadline or the controls are.
   */
  lemma SuggestedObligationCallsForOwner(l: Life, i: nat, id: nat, w: Surroundings, now: Instant)
    requires IsLife(l) && i < |l.states| && id in l.states[i]
    requires l.states[i][id].sourceType == ObligationInstance
    requires Suggestion(l.states[i][id], w, now).Some?
    ensures l.states[i][id].sourceRef in w.instances
    ensures CallsForOwner(w.instances[l.states[i][id].sourceRef].state)
  {
    AlwaysSound(l, i);
    var r := l.states[i][id];
    assert SoundRow(r);
    var instance := w.instances[r.sourceRef];
    var code :=
      if instance.uncertaintyCode.Some? && instance.uncertaintyCode.value != "" then instance.uncertaintyCode.value
      else "NONE";
    var rest := instance.reconciliationStatus + ":" + code;
    assert SourceState(instance) == instance.state + ":" + rest;
    var named := if "PARTIALLY_SATISFIED:" <= r.sourceState then "PARTIALLY_SATISFIED" else "UNCONFIRMED_AFTER_DUE";
    assert named + ":" <= r.sourceState;
    StateIsDecodable(instance.state, rest, named);
  }

  // ----- how far scores reach -----

  /** No assessment scores above this, in millionths. */
  const SCORE_CEILING := 958_000

  lemma ObligationCeiling(state: string, ownerDeclared: bool, relationship: bool, confidence: real, deadline: Instant,
        now: Instant, novelty: int)
    ensures Score(ObligationBase(state, ownerDeclared, relationship, confidence, deadline, now).(novelty := novelty))
      <= SCORE_CEILING
  {
    var c := ObligationBase(state, ownerDeclared, relationship, confidence, deadline, now).(novelty := novelty);
    assert Clamp(c.impact) <= 900_000 && Clamp(c.urgency) <= 950_000 && Clamp(c.relationshipRelevance) <= 800_000;
    assert Clamp(c.recurrenceStability) <= 900_000;
    assert Total(c) <= 100 * SCORE_CEILING;
  }

  lemma MissingStepCeiling(kind: Option<string>, confidence: real, stability: real, observedAt: Instant, now: Instant,
        novelty: int)
    ensures Score(MissingStepBase(kind, confidence, stability, observedAt, now).(novelty := novelty)) <= SCORE_CEILING
  {
    var c := MissingStepBase(kind, confidence, stability, observedAt, now).(novelty := novelty);
    assert Clamp(c.urgency) <= 850_000 && Clamp(c.temporalProximity) <= 850_000;
    assert Total(c) <= 100 * SCORE_CEILING;
  }

  /** Whatever the sources hold, a fresh row scores at most the ceiling. */
  lemma ScoreCeiling(rows: Rows, e: Event, newId: nat, prior: Option<nat>, rows': Rows)
    requires e.AssessObligation? || e.AssessMissingStep?
    requires AssessmentOf(e).Ok? && FreshStep(rows, AssessmentOf(e).value, e.now, newId, prior, rows')
    ensures newId in rows' && rows'[newId].score <= SCORE_CEILING
  {
    hide Score, ClassFor, Codes, Validated, ObligationBase, MissingStepBase;
    var a := AssessmentOf(e).value;
    var novelty := Novelty(RowAt(rows, prior), a.sourceState);
    if e.AssessObligation? {
      var i, d := e.instance.value, e.definition.value;
      var deadline := if i.extensionUntil.Some? then i.extensionUntil.value else i.dueWindowEnd;
      ObligationCeiling(i.state, d.ownerDeclared, d.relationship, d.confidence, deadline, e.now, novelty);
    } else {
      var c, sequence := e.anomaly.claim.value, e.anomaly.sequence.value;
      var observedAt := if c.lastObservedAt.Some? then c.lastObservedAt.value else c.createdAt;
      var stability := Stability(sequence.support, sequence.occurrences);
      MissingStepCeiling(c.secondKind, c.confidence, stability, observedAt, e.now, novelty);
    }
    assert rows'[newId].score == Score(a.base.(novelty := novelty));
  }

  // ----- rows persist -----

  /** Rows stay, with the facts that decide about candidates; only new ones may come. */
  ghost predicate KeepsFacts(rows: Rows, rows': Rows) {
    forall id | id in rows ::
      && id in rows'
      && rows'[id].scoreClass == rows[id].scoreClass && rows'[id].supersedes == rows[id].supersedes
      && rows'[id].sourceState == rows[id].sourceState && rows'[id].signal == rows[id].signal
  }

  lemma NextKeepsFacts(rows: Rows, e: Event, rows': Rows)
    requires Next(rows, e, rows')
    ensures KeepsFacts(rows, rows')
  {
    hide Next, AssessmentOf, FreshStep;
    NextIsFreshOrKeepsFacts(rows, e, rows');
    if prior :| Fresh(rows, e, rows', prior) {
      FreshShape(rows, AssessmentOf(e).value, e.now, e.newId, prior, rows');
    }
  }

  /** A row is never lost, and its score class, its state, its signal and its predecessor never change. */
  lemma {:induction false} AlwaysKeepsFacts(l: Life, i: nat, j: nat)
    requires IsLife(l) && i <= j < |l.states|
    ensures KeepsFacts(l.states[i], l.states[j])
    decreases j
  {
    hide Next;
    if i < j {
      var k := j - 1;
      AlwaysKeepsFacts(l, i, k);
      assert Next(l.states[k], l.events[k], l.states[k + 1]);
      NextKeepsFacts(l.states[k], l.events[k], l.states[k + 1]);
    }
  }

  // ----- candidates of a missing-step signal -----

  /** The signal of an anomaly id: whitespace in the id is collapsed, as in every signal key. */
  function AnomalySignal(tenant: string, anomalyId: string): Signal {
    Signal(tenant, Normalize(ANOMALY_PREFIX + anomalyId))
  }

  /** The event is an assessment that gets as far as the rows of the signal. */
  ghost predicate Reaches(e: Event, s: Signal) {
    && (e.AssessObligation? || e.AssessMissingStep?)
    && AssessmentOf(e).Ok? && Validated(AssessmentOf(e).value).Ok?
    && Validated(AssessmentOf(e).value).value.0 == s
  }

  /** Every missing-step assessment that reaches the signal names this anomaly. */
  ghost predicate NamesOnly(l: Life, s: Signal, anomalyId: string) {
    forall i | 0 <= i < |l.events| && l.events[i].AssessMissingStep? && Reaches(l.events[i], s) ::
      l.events[i].anomaly.claim.value.anomalyId == Some(anomalyId)
  }

  /** All rows of the signal say the same, only a row without predecessor is a candidate, and there is one such row. */
  ghost predicate OneCandidate(rows: Rows, s: Signal, anomalyId: string) {
    && (forall id | Of(rows, id, s) ::
          && rows[id].sourceState == "ACTIVE:" + anomalyId
          && (rows[id].scoreClass == OwnerSuggestion ==> rows[id].supersedes.None?))
    && (forall p, q | Of(rows, p, s) && Of(rows, q, s) && rows[p].supersedes.None? && rows[q].supersedes.None? ::
          p == q)
  }

  lemma AnomalyHead(anomalyId: string)
    ensures var key := Normalize(ANOMALY_PREFIX + anomalyId); key != "" && key[0] == 'm'
  {
    assert (ANOMALY_PREFIX + anomalyId)[0] == 'm';
    NormalizeKeepsHead(ANOMALY_PREFIX + anomalyId);
  }

  /** An assessment reaches an anomaly's signal exactly when it is one of a missing step whose id collapses alike. */
  lemma AnomalySignalIsExact(e: Event, tenant: string, anomalyId: string)
    requires e.AssessObligation? || e.AssessMissingStep?
    requires AssessmentOf(e).Ok? && Validated(AssessmentOf(e).value).Ok?
    ensures Reaches(e, AnomalySignal(tenant, anomalyId)) <==>
      && e.AssessMissingStep? && e.anomaly.actorTenant == Some(tenant)
      && Normalize(ANOMALY_PREFIX + e.anomaly.claim.value.anomalyId.value) == Normalize(ANOMALY_PREFIX + anomalyId)
  {
    hide Normalize;
    AnomalyHead(anomalyId);
    var a := AssessmentOf(e).value;
    if e.AssessObligation? {
      assert a.signalKey[0] == 'o';
      NormalizeKeepsHead(a.signalKey);
    }
  }

  lemma AnomalyIsNamed(e: Event)
    requires e.AssessObligation? || e.AssessMissingStep?
    requires AssessmentOf(e).Ok?
    ensures e.AssessMissingStep? ==>
      && e.anomaly.claim.Some? && e.anomaly.claim.value.anomalyId.Some?
      && AssessmentOf(e).value.sourceState == "ACTIVE:" + e.anomaly.claim.value.anomalyId.value
  {
  }

  /** Ids without whitespace name their signals apart. */
  lemma UnspacedIdsNameOne(x: string, y: string)
    requires Unspaced(x) && Unspaced(y) && Normalize(ANOMALY_PREFIX + x) == Normalize(ANOMALY_PREFIX + y)
    ensures x == y
  {
    UnspacedPrefix(x);
    UnspacedPrefix(y);
    NormalizeUnspaced(ANOMALY_PREFIX + x);
    NormalizeUnspaced(ANOMALY_PREFIX + y);
    assert (ANOMALY_PREFIX + x)[|ANOMALY_PREFIX|..] == x;
    assert (ANOMALY_PREFIX + y)[|ANOMALY_PREFIX|..] == y;
  }

  lemma UnspacedPrefix(anomalyId: string)
    requires Unspaced(anomalyId)
    ensures Unspaced(ANOMALY_PREFIX + anomalyId)
  {
    assert forall i | 0 <= i < |ANOMALY_PREFIX| :: !IsSpace(ANOMALY_PREFIX[i]);
  }

  /** A fresh candidate on the signal is its first row, and its claim is recent and of the right kind. */
  lemma FreshCandidate(rows: Rows, e: Event, newId: nat, prior: Option<nat>, rows': Rows, s: Signal, anomalyId: string)
    requires e.AssessMissingStep? && AssessmentOf(e).Ok?
    requires FreshStep(rows, AssessmentOf(e).value, e.now, newId, prior, rows')
    requires Of(rows', newId, s) && rows'[newId].scoreClass == OwnerSuggestion
    requires OneCandidate(rows, s, anomalyId) && AssessmentOf(e).value.sourceState == "ACTIVE:" + anomalyId
    ensures prior.None?
    ensures var c := e.anomaly.claim.value;
      && (e.now - (if c.lastObservedAt.Some? then c.lastObservedAt.value else c.createdAt)) <= 6 * HOUR
      && (c.secondKind == Some("RELATIONSHIP") || c.secondKind == Some("RESOURCE"))
  {
    hide Codes, Validated;
    var c := e.anomaly.claim.value;
    var observedAt := if c.lastObservedAt.Some? then c.lastObservedAt.value else c.createdAt;
    var sequence := e.anomaly.sequence.value;
    var a := AssessmentOf(e).value;
    var novelty := Novelty(RowAt(rows, prior), a.sourceState);
    if prior.Some? {
      assert Of(rows, prior.value, s);
    }
    MissingStepCandidate(c.secondKind, c.confidence, Stability(sequence.support, sequence.occurrences), observedAt,
      e.now, novelty);
  }

  /** What a fresh step leaves of the rows that were there, and what it adds. */
  lemma FreshShape(rows: Rows, a: Assessment, now: Instant, newId: nat, prior: Option<nat>, rows': Rows)
    requires FreshStep(rows, a, now, newId, prior, rows')
    ensures rows'.Keys == rows.Keys + {newId} && newId !in rows
    ensures forall id | id in rows ::
      && rows'[id].scoreClass == rows[id].scoreClass && rows'[id].supersedes == rows[id].supersedes
      && rows'[id].sourceState == rows[id].sourceState && rows'[id].signal == rows[id].signal
    ensures rows'[newId].signal == Validated(a).value.0 && rows'[newId].sourceState == a.sourceState
    ensures rows'[newId].supersedes.None? <==> prior.None?
    ensures IsLatest(rows, Validated(a).value.0, prior)
  {
    hide Codes, Score, ClassFor, Validated;
  }

  lemma FreshKeepsOneCandidate(rows: Rows, e: Event, newId: nat, prior: Option<nat>, rows': Rows, s: Signal,
        anomalyId: string)
    requires e.AssessMissingStep? && AssessmentOf(e).Ok?
    requires FreshStep(rows, AssessmentOf(e).value, e.now, newId, prior, rows')
    requires Validated(AssessmentOf(e).value).value.0 == s
    requires OneCandidate(rows, s, anomalyId)
    requires AssessmentOf(e).value.sourceState == "ACTIVE:" + anomalyId
    ensures OneCandidate(rows', s, anomalyId)
  {
    hide FreshStep, Validated, AnomalyAssessment, AssessmentOf;
    FreshShape(rows, AssessmentOf(e).value, e.now, newId, prior, rows');
    if rows'[newId].scoreClass == OwnerSuggestion {
      FreshCandidate(rows, e, newId, prior, rows', s, anomalyId);
    }
  }

  /** The facts of a row that no step ever changes are the same in both tables. */
  ghost predicate SameFacts(rows: Rows, rows': Rows) {
    && rows'.Keys == rows.Keys
    && forall id | id in rows ::
         && rows'[id].scoreClass == rows[id].scoreClass && rows'[id].supersedes == rows[id].supersedes
         && rows'[id].sourceState == rows[id].sourceState && rows'[id].signal == rows[id].signal
  }

  ghost predicate Fresh(rows: Rows, e: Event, rows': Rows, prior: Option<nat>) {
    && (e.AssessObligation? || e.AssessMissingStep?)
    && AssessmentOf(e).Ok?
    && FreshStep(rows, AssessmentOf(e).value, e.now, e.newId, prior, rows')
  }

  lemma NextIsFreshOrKeepsFacts(rows: Rows, e: Event, rows': Rows)
    requires Next(rows, e, rows')
    ensures SameFacts(rows, rows') || exists prior :: Fresh(rows, e, rows', prior)
  {
    hide FreshStep, Validated, AssessmentOf;
    if (e.AssessObligation? || e.AssessMissingStep?) && AssessmentOf(e).Ok? {
      if prior :| FreshStep(rows, AssessmentOf(e).value, e.now, e.newId, prior, rows') {
        assert Fresh(rows, e, rows', prior);
      }
    }
  }

  lemma NextKeepsOneCandidate(rows: Rows, e: Event, rows': Rows, tenant: string, anomalyId: string)
    requires Next(rows, e, rows') && OneCandidate(rows, AnomalySignal(tenant, anomalyId), anomalyId)
    requires e.AssessMissingStep? && Reaches(e, AnomalySignal(tenant, anomalyId)) ==>
      e.anomaly.claim.value.anomalyId == Some(anomalyId)
    ensures OneCandidate(rows', AnomalySignal(tenant, anomalyId), anomalyId)
  {
    hide Next, AssessmentOf, FreshRow, FreshStep, Validated, Normalize;
    var s := AnomalySignal(tenant, anomalyId);
    NextIsFreshOrKeepsFacts(rows, e, rows');
    if prior :| Fresh(rows, e, rows', prior) {
      FreshIsValid(rows, e, rows', prior);
      if Validated(AssessmentOf(e).value).value.0 == s {
        AnomalyIsNamed(e);
        AnomalySignalIsExact(e, tenant, anomalyId);
        FreshKeepsOneCandidate(rows, e, e.newId, prior, rows', s, anomalyId);
      } else {
        FreshElsewhere(rows, AssessmentOf(e).value, e.now, e.newId, prior, rows', s);
      }
    }
  }

  lemma FreshIsValid(rows: Rows, e: Event, rows': Rows, prior: Option<nat>)
    requires Fresh(rows, e, rows', prior)
    ensures Validated(AssessmentOf(e).value).Ok?
  {
  }

  /** A fresh row of another signal leaves this one's rows as they are. */
  lemma FreshElsewhere(rows: Rows, a: Assessment, now: Instant, newId: nat, prior: Option<nat>, rows': Rows, s: Signal)
    requires FreshStep(rows, a, now, newId, prior, rows')
    requires Validated(a).value.0 != s
    ensures forall id :: Of(rows', id, s) <==> Of(rows, id, s)
    ensures forall id | Of(rows, id, s) :: rows'[id] == rows[id]
  {
    hide Validated, Codes, Score;
  }

  lemma {:induction false} AlwaysOneCandidate(l: Life, i: nat, tenant: string, anomalyId: string)
    requires IsLife(l) && NamesOnly(l, AnomalySignal(tenant, anomalyId), anomalyId) && i < |l.states|
    ensures OneCandidate(l.states[i], AnomalySignal(tenant, anomalyId), anomalyId)
  {
    hide Next, Reaches, Normalize;
    if i > 0 {
      var k := i - 1;
      AlwaysOneCandidate(l, k, tenant, anomalyId);
      assert Next(l.states[k], l.events[k], l.states[k + 1]);
      NextKeepsOneCandidate(l.states[k], l.events[k], l.states[k + 1], tenant, anomalyId);
    }
  }

  /**
   Over the whole life at most one row of a missing-step signal is ever a candidate, in
   whichever states it is seen.
   */
  lemma AtMostOneCandidate(l: Life, i: nat, j: nat, tenant: string, anomalyId: string, p: nat, q: nat)
    requires IsLife(l) && NamesOnly(l, AnomalySignal(tenant, anomalyId), anomalyId) && i < |l.states| && j < |l.states|
    requires Of(l.states[i], p, AnomalySignal(tenant, anomalyId)) && l.states[i][p].scoreClass == OwnerSuggestion
    requires Of(l.states[j], q, AnomalySignal(tenant, anomalyId)) && l.states[j][q].scoreClass == OwnerSuggestion
    ensures p == q
  {
    hide IsLife, NamesOnly, Normalize;
    var n := if i <= j then j else i;
    AlwaysOneCandidate(l, n, tenant, anomalyId);
    AlwaysKeepsFacts(l, i, n);
    AlwaysKeepsFacts(l, j, n);
  }

  /** And whenever one is created it is the first row of its signal, recent and of the right kind. */
  lemma CandidateIsFirstAndRecent(l: Life, i: nat, tenant: string, anomalyId: string, prior: Option<nat>)
    requires IsLife(l) && NamesOnly(l, AnomalySignal(tenant, anomalyId), anomalyId) && i < |l.events|
    requires Fresh(l.states[i], l.events[i], l.states[i + 1], prior)
    requires Of(l.states[i + 1], l.events[i].newId, AnomalySignal(tenant, anomalyId))
    requires l.states[i + 1][l.events[i].newId].scoreClass == OwnerSuggestion
    ensures forall id | id in l.states[i] :: l.states[i][id].signal != AnomalySignal(tenant, anomalyId)
    ensures l.events[i].AssessMissingStep?
    ensures var c := l.events[i].anomaly.claim.value;
      && (l.events[i].now - (if c.lastObservedAt.Some? then c.lastObservedAt.value else c.createdAt)) <= 6 * HOUR
      && (c.secondKind == Some("RELATIONSHIP") || c.secondKind == Some("RESOURCE"))
  {
    hide FreshStep, Validated, AssessmentOf, Normalize;
    var e := l.events[i];
    AlwaysOneCandidate(l, i, tenant, anomalyId);
    FreshIsValid(l.states[i], e, l.states[i + 1], prior);
    FreshShape(l.states[i], AssessmentOf(e).value, e.now, e.newId, prior, l.states[i + 1]);
    AnomalyIsNamed(e);
    AnomalySignalIsExact(e, tenant, anomalyId);
    FreshCandidate(l.states[i], e, e.newId, prior, l.states[i + 1], AnomalySignal(tenant, anomalyId), anomalyId);
  }

  /**
   What holds for one id fails for two. Whatever came before, when the latest row of the signal
   was made for anomaly `x`, a row made for anomaly `y` is a candidate exactly when `y` is
   another id and the claim is strong enough for a first row.
   */
  lemma SecondCandidateIff(rows: Rows, e: Event, newId: nat, prior: nat, rows': Rows, x: string, y: string)
    requires e.AssessMissingStep? && AssessmentOf(e).Ok? && e.anomaly.claim.value.anomalyId == Some(y)
    requires FreshStep(rows, AssessmentOf(e).value, e.now, newId, Some(prior), rows')
    requires prior in rows && rows[prior].sourceState == "ACTIVE:" + x
    ensures newId in rows'
    ensures rows'[newId].scoreClass == OwnerSuggestion <==>
      y != x && ClassFor(Score(AssessmentOf(e).value.base.(novelty := ONE))) == OwnerSuggestion
  {
    hide Codes, Score, ClassFor, Validated;
    var a := AssessmentOf(e).value;
    assert a.sourceState == "ACTIVE:" + y;
    assert "ACTIVE:" + y == "ACTIVE:" + x <==> y == x by {
      assert ("ACTIVE:" + y)[7..] == y && ("ACTIVE:" + x)[7..] == x;
    }
    assert rows'[newId].scoreClass == ClassFor(Score(a.base.(novelty := if y == x then 400_000 else ONE)));
    RepeatedStepIsNoCandidate(e);
  }

  lemma RepeatedStepIsNoCandidate(e: Event)
    requires e.AssessMissingStep? && AssessmentOf(e).Ok?
    ensures ClassFor(Score(AssessmentOf(e).value.base.(novelty := 400_000))) != OwnerSuggestion
  {
    hide Score, ClassFor;
    var c, sequence := e.anomaly.claim.value, e.anomaly.sequence.value;
    var observedAt := if c.lastObservedAt.Some? then c.lastObservedAt.value else c.createdAt;
    var stability := Stability(sequence.support, sequence.occurrences);
    var base := MissingStepBase(c.secondKind, c.confidence, stability, observedAt, e.now);
    if ClassFor(Score(base.(novelty := 400_000))) == OwnerSuggestion {
      MissingStepCandidate(c.secondKind, c.confidence, stability, observedAt, e.now, 400_000);
    }
  }

  /** Such an id is easily found: whitespace behind an id does it. */
  lemma TrailingSpaceIsAnotherId(x: string)
    requires Unspaced(x)
    ensures x + " " != x && Normalize(ANOMALY_PREFIX + (x + " ")) == Normalize(ANOMALY_PREFIX + x)
  {
    UnspacedPrefix(x);
    NormalizeUnspaced(ANOMALY_PREFIX + x);
    NormalizeTrailingSpace(ANOMALY_PREFIX + x);
    assert ANOMALY_PREFIX + (x + " ") == (ANOMALY_PREFIX + x) + " ";
    assert |x + " "| != |x|;
  }
}
