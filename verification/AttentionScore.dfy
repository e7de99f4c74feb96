/**
 Salience scores of the attention engine in exact decimals: components and scores are
 whole millionths, weights are whole hundredths, and the weighted total is rounded once,
 half to even. Instants are microseconds.
 */
module AttentionScore {
  import opened Common

  type Instant = int

  const ONE := 1_000_000
  const HOUR := 3_600_000_000
  const DAY := 24 * HOUR

  const IGNORE_THRESHOLD := 650_000
  const SUGGESTION_THRESHOLD := 820_000

  datatype Components = Components(
    impact: int,
    urgency: int,
    novelty: int,
    confidence: int,
    temporalProximity: int,
    relationshipRelevance: int,
    ownerRelevance: int,
    expectationViolation: int,
    recurrenceStability: int,
    sourceQuality: int)

  datatype Class = Ignore | ReasoningQueue | OwnerSuggestion

  function Rank(c: Class): nat {
    match c
    case Ignore => 0
    case ReasoningQueue => 1
    case OwnerSuggestion => 2
  }

  function ClampUnit(x: real): real {
    if x < 0.0 then 0.0 else if x > 1.0 then 1.0 else x
  }

  /** A value clamped to [0, 1] and rounded to six decimals, half to even. */
  function Millionths(x: real): (m: int)
    ensures 0 <= m <= ONE
  {
    var scaled := ClampUnit(x) * 1000000.0;
    var low := scaled.Floor;
    var rest := scaled - low as real;
    if rest < 0.5 || (rest == 0.5 && low % 2 == 0) then low else low + 1
  }

  function Clamp(c: int): (r: int)
    ensures 0 <= r <= ONE
  {
    if c < 0 then 0 else if c > ONE then ONE else c
  }

  /** `n` hundredths of a millionth, rounded to millionths, half to even. */
  function RoundHundredths(n: int): (r: int)
    ensures 100 * r - 50 <= n <= 100 * r + 50
  {
    var low, rest := n / 100, n % 100;
    if rest < 50 || (rest == 50 && low % 2 == 0) then low else low + 1
  }

  /** The weighted total, in hundredths of a millionth. */
  function Total(c: Components): (t: int)
    ensures 0 <= t <= 100 * ONE
  {
    14 * Clamp(c.impact) + 12 * Clamp(c.urgency) + 8 * Clamp(c.novelty) + 10 * Clamp(c.confidence)
    + 10 * Clamp(c.temporalProximity) + 8 * Clamp(c.relationshipRelevance) + 12 * Clamp(c.ownerRelevance)
    + 14 * Clamp(c.expectationViolation) + 6 * Clamp(c.recurrenceStability) + 6 * Clamp(c.sourceQuality)
  }

  function Score(c: Components): (s: int)
    ensures 0 <= s <= ONE
  {
    RoundHundredths(Total(c))
  }

  function ClassFor(score: int): Class {
    if score < IGNORE_THRESHOLD then Ignore
    else if score < SUGGESTION_THRESHOLD then ReasoningQueue
    else OwnerSuggestion
  }

  // ----- reason codes -----

  datatype Threshold = Threshold(value: int, minimum: int, code: string)

  function Thresholds(c: Components): seq<Threshold> {
    [ Threshold(c.impact, 700_000, "HIGH_IMPACT"),
      Threshold(c.urgency, 700_000, "HIGH_URGENCY"),
      Threshold(c.novelty, 700_000, "NOVEL_CHANGE"),
      Threshold(c.confidence, 800_000, "HIGH_CONFIDENCE"),
      Threshold(c.temporalProximity, 800_000, "TEMPORALLY_NEAR"),
      Threshold(c.relationshipRelevance, 750_000, "RELATIONSHIP_RELEVANT"),
      Threshold(c.ownerRelevance, 800_000, "OWNER_RELEVANT"),
      Threshold(c.expectationViolation, 700_000, "EXPECTATION_VIOLATION"),
      Threshold(c.recurrenceStability, 800_000, "STABLE_RECURRENCE"),
      Threshold(c.sourceQuality, 800_000, "STRONG_SOURCE") ]
  }

  function Codes(c: Components): set<string> {
    set t | t in Thresholds(c) && t.value >= t.minimum :: t.code
  }

  /** _reason_codes: walks the table and appends the code of every threshold that is met. */
  method ReasonCodes(c: Components) returns (codes: seq<string>)
    ensures (set x | x in codes) == Codes(c)
    ensures |codes| <= |Thresholds(c)|
  {
    codes := [];
    var table := Thresholds(c);
    for n := 0 to |table|
      invariant |codes| <= n
      invariant forall x :: x in codes <==>
        exists i :: 0 <= i < n && table[i].value >= table[i].minimum && table[i].code == x
    {
      if table[n].value >= table[n].minimum {
        codes := codes + [table[n].code];
      }
    }
    forall x
      ensures x in codes <==> x in Codes(c)
    {
      if x in Codes(c) {
        var t :| t in Thresholds(c) && t.value >= t.minimum && t.code == x;
        var i :| 0 <= i < |table| && table[i] == t;
        assert table[i].code == x;
      }
    }
  }

  // ----- obligations -----

  function TemporalProximity(reference: Instant, now: Instant): int {
    var delta := if now >= reference then now - reference else reference - now;
    if delta <= DAY then 1_000_000
    else if delta <= 3 * DAY then 800_000
    else if delta <= 7 * DAY then 500_000
    else 200_000
  }

  function DeadlineUrgency(state: string, deadline: Instant, now: Instant): int {
    var remaining := deadline - now;
    if state == "UNCONFIRMED_AFTER_DUE" then 950_000
    else if state == "PARTIALLY_SATISFIED" && remaining < 0 then 900_000
    else if state == "SATISFIED" || state == "WAIVED" || state == "SUPERSEDED" then 50_000
    else if remaining <= DAY then 850_000
    else if remaining <= 3 * DAY then 650_000
    else if remaining <= 7 * DAY then 400_000
    else 200_000
  }

  function StateImpact(state: string): int {
    if state == "EXPECTED" then 200_000
    else if state == "SATISFIED" then 100_000
    else if state == "PARTIALLY_SATISFIED" then 650_000
    else if state == "EXTENDED" then 250_000
    else if state == "WAIVED" then 50_000
    else if state == "UNCONFIRMED_AFTER_DUE" then 900_000
    else if state == "SUPERSEDED" then 50_000
    else 200_000
  }

  function ExpectationViolation(state: string, deadline: Instant, now: Instant): int {
    if state == "UNCONFIRMED_AFTER_DUE" then 1_000_000
    else if state == "PARTIALLY_SATISFIED" then (if deadline < now then 750_000 else 550_000)
    else if state == "EXTENDED" then 100_000
    else 0
  }

  /** The base components of an obligation; novelty is filled in when the row is persisted. */
  function ObligationBase(state: string, ownerDeclared: bool, relationship: bool, confidence: real, deadline: Instant,
        now: Instant): Components
  {
    Components(
      StateImpact(state),
      DeadlineUrgency(state, deadline, now),
      0,
      Millionths(confidence),
      TemporalProximity(deadline, now),
      if relationship then 800_000 else 650_000,
      if ownerDeclared then 1_000_000 else 900_000,
      ExpectationViolation(state, deadline, now),
      900_000,
      if ownerDeclared then 1_000_000 else 850_000)
  }

  /** The states in which an obligation asks for its owner. */
  predicate CallsForOwner(state: string) {
    state == "PARTIALLY_SATISFIED" || state == "UNCONFIRMED_AFTER_DUE"
  }

  /** An obligation in this state, with these inputs, scores as a suggestion. */
  predicate Suggests(state: string, ownerDeclared: bool, relationship: bool, confidence: real, deadline: Instant,
        now: Instant, novelty: int)
  {
    var c := ObligationBase(state, ownerDeclared, relationship, confidence, deadline, now).(novelty := novelty);
    ClassFor(Score(c)) == OwnerSuggestion
  }

  /** In every other state no confidence, deadline or novelty reaches the suggestion threshold. */
  lemma QuietStateStaysBelowSuggestion(state: string, ownerDeclared: bool, relationship: bool, confidence: real,
        deadline: Instant, now: Instant, novelty: int)
    requires !CallsForOwner(state)
    ensures !Suggests(state, ownerDeclared, relationship, confidence, deadline, now, novelty)
  {
    var c := ObligationBase(state, ownerDeclared, relationship, confidence, deadline, now).(novelty := novelty);
    assert Clamp(c.impact) <= 250_000 && Clamp(c.urgency) <= 850_000 && Clamp(c.expectationViolation) <= 100_000;
    assert Total(c) <= 80_000_000;
  }

  /** Hence the states in which an obligation can be suggested at all are exactly the two owner states. */
  lemma OnlyOwnerStatesReachSuggestion(state: string)
    ensures CallsForOwner(state) <==>
      exists ownerDeclared, relationship, confidence, deadline, now, novelty ::
        Suggests(state, ownerDeclared, relationship, confidence, deadline, now, novelty)
  {
    if CallsForOwner(state) {
      OwnerStateReachesSuggestion(state, 0, DAY);
    } else {
      forall ownerDeclared, relationship, confidence, deadline, now, novelty
        ensures !Suggests(state, ownerDeclared, relationship, confidence, deadline, now, novelty)
      {
        QuietStateStaysBelowSuggestion(state, ownerDeclared, relationship, confidence, deadline, now, novelty);
      }
    }
  }

  /** In the best case both owner states reach it, during the day after the deadline. */
  lemma OwnerStateReachesSuggestion(state: string, deadline: Instant, now: Instant)
    requires CallsForOwner(state) && deadline < now <= deadline + DAY
    ensures Suggests(state, true, true, 1.0, deadline, now, ONE)
  {
  }

  // ----- missing steps -----

  function AgeWeight(reference: Instant, now: Instant): int {
    var age := if now >= reference then now - reference else 0;
    if age <= 6 * HOUR then 850_000
    else if age <= DAY then 700_000
    else if age <= 3 * DAY then 400_000
    else 200_000
  }

  function SignatureRelevance(kind: Option<string>): int {
    if kind == Some("RELATIONSHIP") then 800_000
    else if kind == Some("RESOURCE") then 650_000
    else 450_000
  }

  /** Mean of the support ratio and of a fifth of the occurrence count, each clamped to [0, 1]. */
  function Stability(support: Option<real>, occurrences: Option<int>): real {
    var s := if support.Some? then ClampUnit(support.value) else 0.0;
    var o := if occurrences.Some? then ClampUnit(occurrences.value as real / 5.0) else 0.0;
    (s + o) / 2.0
  }

  function MissingStepBase(kind: Option<string>, confidence: real, stability: real, observedAt: Instant,
        now: Instant): Components
  {
    var age := AgeWeight(observedAt, now);
    Components(600_000, age, 0, Millionths(confidence), age, SignatureRelevance(kind), 900_000, 800_000,
               Millionths(stability), 750_000)
  }

  /** A missing step is a candidate only when it is new, recent, and about a relationship or a resource. */
  lemma MissingStepCandidate(kind: Option<string>, confidence: real, stability: real, observedAt: Instant, now: Instant,
        novelty: int)
    requires ClassFor(Score(MissingStepBase(kind, confidence, stability, observedAt, now).(novelty := novelty)))
      == OwnerSuggestion
    ensures novelty > 400_000
    ensures now - observedAt <= 6 * HOUR
    ensures kind == Some("RELATIONSHIP") || kind == Some("RESOURCE")
  {
    var c := MissingStepBase(kind, confidence, stability, observedAt, now).(novelty := novelty);
    assert Total(c) >= 81_999_950;
    assert Clamp(c.confidence) <= ONE && Clamp(c.recurrenceStability) <= ONE && Clamp(c.novelty) <= ONE;
  }
}
