/**
 The attention engine in columns: how a text is collapsed, what each score, class and reason code is
 made of, what the sources must say, and every column of a row that is created, refreshed, superseded
 or suggested.
 */
module AttentionColumns {
  import opened Common
  import opened TextScan
  import opened AttentionScore
  import opened AttentionStore

  // ----- texts -----

  /** The words of `s` begin at `at`; around each of them is whitespace or an end, and between them only that. */
  ghost predicate WordsAt(s: string, words: seq<string>, at: seq<int>) {
    && |at| == |words|
    && (forall k | 0 <= k < |at| :: WordAt(s, words[k], at[k]))
    && (forall k, m | 0 <= k < m < |at| :: at[k] + |words[k]| < at[m])
    && forall i | 0 <= i < |s| && !IsSpace(s[i]) :: exists k :: 0 <= k < |at| && at[k] <= i < at[k] + |words[k]|
  }

  ghost predicate WordAt(s: string, word: string, i: int) {
    && word != "" && 0 <= i <= i + |word| <= |s| && s[i..i + |word|] == word && Unspaced(word)
    && (i + |word| < |s| ==> IsSpace(s[i + |word|]))
  }

  lemma {:induction false} WordsAreFound(s: string) returns (at: seq<int>)
    ensures WordsAt(s, Words(s), at)
    decreases |s|
  {
    if s == "" {
      at := [];
    } else if IsSpace(s[0]) {
      var rest := WordsAreFound(s[1..]);
      at := seq(|rest|, k requires 0 <= k < |rest| => rest[k] + 1);
      MovedWords(s, 1, Words(s[1..]), rest, at);
    } else {
      var n := WordLength(s);
      var rest := WordsAreFound(s[n..]);
      var moved := seq(|rest|, k requires 0 <= k < |rest| => rest[k] + n);
      MovedWords(s, n, Words(s[n..]), rest, moved);
      OneMoreWord(s, n, Words(s[n..]), moved);
      at := [0] + moved;
    }
  }

  /** The words of the text from `n` on. */
  ghost predicate WordsBehind(s: string, n: int, words: seq<string>, at: seq<int>) {
    && 0 <= n && |at| == |words|
    && (forall k | 0 <= k < |at| :: n <= at[k] && WordAt(s, words[k], at[k]))
    && (forall k, m | 0 <= k < m < |at| :: at[k] + |words[k]| < at[m])
    && forall i | n <= i < |s| && !IsSpace(s[i]) :: exists k :: 0 <= k < |at| && at[k] <= i < at[k] + |words[k]|
  }

  lemma MovedWords(s: string, n: int, words: seq<string>, rest: seq<int>, at: seq<int>)
    requires 0 <= n <= |s| && WordsAt(s[n..], words, rest)
    requires |at| == |rest| && forall k | 0 <= k < |rest| :: at[k] == rest[k] + n
    ensures WordsBehind(s, n, words, at)
    ensures n == 1 && IsSpace(s[0]) ==> WordsAt(s, words, at)
  {
    hide Unspaced, WordAt, IsSpace;
    forall k | 0 <= k < |at|
      ensures n <= at[k] && WordAt(s, words[k], at[k])
    {
      WordMoved(s, n, words[k], rest[k]);
    }
    forall i | n <= i < |s| && !IsSpace(s[i])
      ensures exists k :: 0 <= k < |at| && at[k] <= i < at[k] + |words[k]|
    {
      assert s[n..][i - n] == s[i];
      var k :| 0 <= k < |rest| && rest[k] <= i - n < rest[k] + |words[k]|;
      assert at[k] <= i < at[k] + |words[k]|;
    }
  }

  lemma WordMoved(s: string, n: int, word: string, i: int)
    requires 0 <= n <= |s| && WordAt(s[n..], word, i)
    ensures 0 <= i && WordAt(s, word, i + n)
  {
    hide Unspaced, IsSpace;
    assert s[i + n..i + n + |word|] == s[n..][i..i + |word|];
  }

  lemma FirstWord(s: string, n: int)
    requires 0 < n <= |s| && (n < |s| ==> IsSpace(s[n])) && forall i | 0 <= i < n :: !IsSpace(s[i])
    ensures WordAt(s, s[..n], 0)
  {
  }

  lemma WordStarts(s: string, word: string, i: int)
    requires WordAt(s, word, i)
    ensures 0 <= i < |s| && !IsSpace(s[i])
  {
    assert s[i] == word[0];
  }

  lemma OneMoreWord(s: string, n: int, words: seq<string>, at: seq<int>)
    requires 0 < n <= |s| && WordsBehind(s, n, words, at) && (n < |s| ==> IsSpace(s[n]))
    requires forall i | 0 <= i < n :: !IsSpace(s[i])
    ensures WordsAt(s, [s[..n]] + words, [0] + at)
  {
    hide WordAt;
    var all, from := [s[..n]] + words, [0] + at;
    FirstWord(s, n);
    forall k | 0 <= k < |from|
      ensures WordAt(s, all[k], from[k])
    {
      assert k > 0 ==> all[k] == words[k - 1] && from[k] == at[k - 1];
    }
    forall k, m | 0 <= k < m < |from|
      ensures from[k] + |all[k]| < from[m]
    {
      if k > 0 {
        assert at[k - 1] + |words[k - 1]| < at[m - 1];
      } else {
        WordStarts(s, words[m - 1], at[m - 1]);
      }
    }
    forall i | 0 <= i < |s| && !IsSpace(s[i])
      ensures exists k :: 0 <= k < |from| && from[k] <= i < from[k] + |all[k]|
    {
      if i < n {
        assert from[0] <= i < from[0] + |all[0]|;
      } else {
        var k :| 0 <= k < |at| && at[k] <= i < at[k] + |words[k]|;
        assert from[k + 1] <= i < from[k + 1] + |all[k + 1]|;
      }
    }
  }

  /** One blank comes between two words. */
  lemma {:induction false} JoinedByBlanks(words: seq<string>, word: string)
    ensures JoinWords([word]) == word
    ensures words != [] ==> JoinWords(words + [word]) == JoinWords(words) + " " + word
  {
    if |words| > 1 {
      JoinedByBlanks(words[1..], word);
      assert (words + [word])[1..] == words[1..] + [word];
    } else if |words| == 1 {
      assert (words + [word])[1..] == [word];
    }
  }

  /** A text is taken when, collapsed, it is not empty and keeps to the limit. */
  lemma BoundedIff(s: string, limit: nat, t: string)
    ensures Bounded(s, limit) == Ok(t) <==> t == JoinWords(Words(s)) && 1 <= |t| <= limit
    ensures Bounded(s, limit) == Err(Required) <==> |JoinWords(Words(s))| == 0
    ensures Bounded(s, limit) == Err(TooLong) <==> |JoinWords(Words(s))| > limit
  {
  }

  // ----- scores -----

  /** `s` is the nearest whole number of hundreds to `n`, the even one of two. */
  ghost predicate RoundsTo(n: int, s: int) {
    100 * s - 50 <= n <= 100 * s + 50 && (n == 100 * s - 50 || n == 100 * s + 50 ==> s % 2 == 0)
  }

  ghost function UnitInterval(c: int): int {
    if c <= 0 then 0 else if c <= 1_000_000 then c else 1_000_000
  }

  /** The ten weights, in hundredths. */
  ghost function Weighted(c: Components): int {
    UnitInterval(c.impact) * 14 + UnitInterval(c.urgency) * 12 + UnitInterval(c.novelty) * 8
    + UnitInterval(c.confidence) * 10 + UnitInterval(c.temporalProximity) * 10
    + UnitInterval(c.relationshipRelevance) * 8 + UnitInterval(c.ownerRelevance) * 12
    + UnitInterval(c.expectationViolation) * 14 + UnitInterval(c.recurrenceStability) * 6
    + UnitInterval(c.sourceQuality) * 6
  }

  /** The score is the weighted mean of the components, each held within its bounds. */
  lemma ScoreIff(c: Components, s: int)
    ensures Score(c) == s <==> RoundsTo(Weighted(c), s)
  {
    hide RoundsTo, RoundHundredths, Total, Weighted;
    TotalIsWeighted(c);
    RoundHundredthsIff(Total(c), s);
  }

  lemma TotalIsWeighted(c: Components)
    ensures Total(c) == Weighted(c)
  {
    hide Clamp, UnitInterval;
    SameBounds(c.impact);
    SameBounds(c.urgency);
    SameBounds(c.novelty);
    SameBounds(c.confidence);
    SameBounds(c.temporalProximity);
    SameBounds(c.relationshipRelevance);
    SameBounds(c.ownerRelevance);
    SameBounds(c.expectationViolation);
    SameBounds(c.recurrenceStability);
    SameBounds(c.sourceQuality);
  }

  lemma SameBounds(c: int)
    ensures Clamp(c) == UnitInterval(c)
  {
  }

  lemma RoundHundredthsIff(n: int, s: int)
    ensures RoundHundredths(n) == s <==> RoundsTo(n, s)
  {
  }

  /** A real in millionths, held between 0 and 1, and half-way cases even. */
  lemma MillionthsIff(x: real, m: int)
    ensures Millionths(x) == m <==>
      if x <= 0.0 then m == 0
      else if x >= 1.0 then m == 1_000_000
      else
        && 2000000.0 * x - 1.0 <= (2 * m) as real <= 2000000.0 * x + 1.0
        && ((2 * m) as real == 2000000.0 * x - 1.0 || (2 * m) as real == 2000000.0 * x + 1.0 ==> m % 2 == 0)
  {
  }

  lemma ClassIff(score: int)
    ensures ClassFor(score) == OwnerSuggestion <==> score >= 820_000
    ensures ClassFor(score) == ReasoningQueue <==> 650_000 <= score < 820_000
    ensures ClassFor(score) == Ignore <==> score < 650_000
    ensures Rank(Ignore) < Rank(ReasoningQueue) < Rank(OwnerSuggestion)
  {
  }

  /** Which components earn which reason code. */
  lemma CodesIff(c: Components, code: string)
    ensures code in Codes(c) <==>
      || (code == "HIGH_IMPACT" && c.impact >= 700_000)
      || (code == "HIGH_URGENCY" && c.urgency >= 700_000)
      || (code == "NOVEL_CHANGE" && c.novelty >= 700_000)
      || (code == "HIGH_CONFIDENCE" && c.confidence >= 800_000)
      || (code == "TEMPORALLY_NEAR" && c.temporalProximity >= 800_000)
      || (code == "RELATIONSHIP_RELEVANT" && c.relationshipRelevance >= 750_000)
      || (code == "OWNER_RELEVANT" && c.ownerRelevance >= 800_000)
      || (code == "EXPECTATION_VIOLATION" && c.expectationViolation >= 700_000)
      || (code == "STABLE_RECURRENCE" && c.recurrenceStability >= 800_000)
      || (code == "STRONG_SOURCE" && c.sourceQuality >= 800_000)
  {
    hide Codes, Thresholds;
    EarnedByOne(c, code);
    TenThresholds(c);
    var t := Thresholds(c);
    assert (exists i :: Earns(t, i, code)) <==>
      || Earns(t, 0, code) || Earns(t, 1, code) || Earns(t, 2, code) || Earns(t, 3, code) || Earns(t, 4, code)
      || Earns(t, 5, code) || Earns(t, 6, code) || Earns(t, 7, code) || Earns(t, 8, code) || Earns(t, 9, code);
  }

  lemma EarnedByOne(c: Components, code: string)
    ensures code in Codes(c) <==> exists i :: Earns(Thresholds(c), i, code)
  {
    hide Thresholds;
    var table := Thresholds(c);
    if code in Codes(c) {
      var t :| t in table && t.value >= t.minimum && t.code == code;
      var i :| 0 <= i < |table| && table[i] == t;
      assert Earns(table, i, code);
    }
    if i :| Earns(table, i, code) {
      assert table[i] in table;
    }
  }

  ghost predicate Earns(table: seq<Threshold>, i: int, code: string) {
    0 <= i < |table| && table[i].value >= table[i].minimum && table[i].code == code
  }

  lemma TenThresholds(c: Components)
    ensures var t := Thresholds(c);
      && |t| == 10
      && t[0] == Threshold(c.impact, 700_000, "HIGH_IMPACT")
      && t[1] == Threshold(c.urgency, 700_000, "HIGH_URGENCY")
      && t[2] == Threshold(c.novelty, 700_000, "NOVEL_CHANGE")
      && t[3] == Threshold(c.confidence, 800_000, "HIGH_CONFIDENCE")
      && t[4] == Threshold(c.temporalProximity, 800_000, "TEMPORALLY_NEAR")
      && t[5] == Threshold(c.relationshipRelevance, 750_000, "RELATIONSHIP_RELEVANT")
      && t[6] == Threshold(c.ownerRelevance, 800_000, "OWNER_RELEVANT")
      && t[7] == Threshold(c.expectationViolation, 700_000, "EXPECTATION_VIOLATION")
      && t[8] == Threshold(c.recurrenceStability, 800_000, "STABLE_RECURRENCE")
      && t[9] == Threshold(c.sourceQuality, 800_000, "STRONG_SOURCE")
  {
  }

  // ----- components of the sources -----

  /** One of four values, by three limits that are not yet past. */
  ghost function Graded(distance: int, near: int, middle: int, far: int, values: (int, int, int, int)): int {
    if distance > far then values.3
    else if distance > middle then values.2
    else if distance > near then values.1
    else values.0
  }

  /** The components of an obligation, by its state and how far its deadline is, in microseconds. */
  lemma ObligationColumns(state: string, ownerDeclared: bool, relationship: bool, confidence: real, deadline: Instant,
        now: Instant)
    ensures var c := ObligationBase(state, ownerDeclared, relationship, confidence, deadline, now);
      var day, left := 86_400_000_000, deadline - now;
      && c.novelty == 0 && c.confidence == Millionths(confidence) && c.recurrenceStability == 900_000
      && c.relationshipRelevance == (if relationship then 800_000 else 650_000)
      && c.ownerRelevance == (if ownerDeclared then 1_000_000 else 900_000)
      && c.sourceQuality == (if ownerDeclared then 1_000_000 else 850_000)
      && c.temporalProximity
           == Graded(if left < 0 then -left else left, day, 3 * day, 7 * day, (1_000_000, 800_000, 500_000, 200_000))
      && c.urgency == UrgencyOf(state, left, day)
      && c.impact == ImpactOf(state)
      && c.expectationViolation == ViolationOf(state, left)
  {
  }

  ghost function ImpactOf(state: string): int {
    match state
    case "UNCONFIRMED_AFTER_DUE" => 900_000
    case "PARTIALLY_SATISFIED" => 650_000
    case "EXTENDED" => 250_000
    case "SATISFIED" => 100_000
    case "WAIVED" => 50_000
    case "SUPERSEDED" => 50_000
    case _ => 200_000
  }

  ghost function ViolationOf(state: string, left: int): int {
    match state
    case "UNCONFIRMED_AFTER_DUE" => 1_000_000
    case "PARTIALLY_SATISFIED" => if left < 0 then 750_000 else 550_000
    case "EXTENDED" => 100_000
    case _ => 0
  }

  ghost function UrgencyOf(state: string, left: int, day: int): int {
    match state
    case "UNCONFIRMED_AFTER_DUE" => 950_000
    case "SATISFIED" => 50_000
    case "WAIVED" => 50_000
    case "SUPERSEDED" => 50_000
    case _ =>
      if state == "PARTIALLY_SATISFIED" && left < 0 then 900_000
      else Graded(left, day, 3 * day, 7 * day, (850_000, 650_000, 400_000, 200_000))
  }

  /** The components of a missing step, by its age, its kind and how well its sequence is supported. */
  lemma MissingStepColumns(kind: Option<string>, confidence: real, stability: real, observedAt: Instant, now: Instant)
    ensures var c := MissingStepBase(kind, confidence, stability, observedAt, now);
      var hour, age := 3_600_000_000, now - observedAt;
      && c.impact == 600_000 && c.novelty == 0 && c.ownerRelevance == 900_000 && c.expectationViolation == 800_000
      && c.sourceQuality == 750_000 && c.confidence == Millionths(confidence)
      && c.recurrenceStability == Millionths(stability)
      && c.urgency == c.temporalProximity
      && c.urgency == Graded(age, 6 * hour, 24 * hour, 72 * hour, (850_000, 700_000, 400_000, 200_000))
      && (kind == Some("RELATIONSHIP") ==> c.relationshipRelevance == 800_000)
      && (kind == Some("RESOURCE") ==> c.relationshipRelevance == 650_000)
      && (kind != Some("RELATIONSHIP") && kind != Some("RESOURCE") ==> c.relationshipRelevance == 450_000)
  {
  }

  /** Half of the support ratio and a tenth of the occurrences, neither above one half. */
  lemma StabilityColumns(support: Option<real>, occurrences: Option<int>)
    ensures 2.0 * Stability(support, occurrences) ==
      (if support.None? || support.value <= 0.0 then 0.0 else if support.value >= 1.0 then 1.0 else support.value)
      + (if occurrences.None? || occurrences.value <= 0 then 0.0
         else if occurrences.value >= 5 then 1.0 else 0.2 * occurrences.value as real)
  {
  }

  // ----- sources -----

  /** When an obligation can be assessed, and what is handed to the store. */
  lemma ObligationAssessedIff(instance: Option<Instance>, definition: Option<Definition>, now: Instant)
    ensures ObligationAssessment(instance, definition, now).Ok? <==>
      && instance.Some? && definition.Some? && definition.value.tenant == instance.value.tenant
      && definition.value.active && !definition.value.secret && instance.value.sensitivity != Secret
    ensures ObligationAssessment(instance, definition, now) == Err(InstanceNotFound) <==> instance.None?
    ensures ObligationAssessment(instance, definition, now) == Err(DefinitionInvalid) <==>
      instance.Some? && (definition.None? || definition.value.tenant != instance.value.tenant)
    ensures ObligationAssessment(instance, definition, now) == Err(DefinitionInactive) <==>
      && instance.Some? && definition.Some? && definition.value.tenant == instance.value.tenant
      && !definition.value.active
    ensures ObligationAssessment(instance, definition, now).Ok? ==>
      var a, i, d := ObligationAssessment(instance, definition, now).value, instance.value, definition.value;
      && a.tenant == i.tenant && a.signalKey == "obligation-instance:" + i.id && a.sourceType == ObligationInstance
      && a.sourceRef == i.id && a.sourceState == i.state + ":" + i.reconciliationStatus + ":" + UncertaintyOf(i)
      && a.sensitivity == i.sensitivity && !a.ownerPrivate && !a.nonActionable
      && a.snapshot == ObligationSnapshot(i.id, d.id, a.sourceState, i.ratio, i.expectedBy, DeadlineOf(i), i.updatedAt)
      && a.base == ObligationBase(i.state, d.ownerDeclared, d.relationship, d.confidence, DeadlineOf(i), now)
  {
  }

  ghost function UncertaintyOf(i: Instance): string {
    match i.uncertaintyCode
    case None => "NONE"
    case Some(code) => if |code| == 0 then "NONE" else code
  }

  ghost function DeadlineOf(i: Instance): Instant {
    match i.extensionUntil
    case None => i.dueWindowEnd
    case Some(until) => until
  }

  /** The sequence that a missing step was missed in: derived, active, of the same actor and not secret. */
  ghost predicate IsSequenceOf(s: Option<Claim>, c: Claim) {
    && s.Some? && s.value.actorId == c.actorId && s.value.active && s.value.sensitivity != Secret
    && s.value.predicate_ == "context.pattern.event_sequence" && s.value.sourceQuality == "DERIVED_PATTERN"
  }

  ghost predicate IsAnomaly(c: Claim) {
    && c.predicate_ == "context.pattern.sequence_anomaly" && c.sourceQuality == "DERIVED_PATTERN"
    && c.anomalyType == Some("MISSING_EXPECTED_STEP") && c.evidenceClass == Some("INFERRED") && c.deniesAuthority
  }

  ghost predicate Named(t: Option<string>) {
    t.Some? && |t.value| > 0
  }

  /** When a missing step can be assessed, and what is handed to the store. */
  lemma AnomalyAssessedIff(a: Anomaly, now: Instant)
    ensures AnomalyAssessment(a, now).Ok? <==>
      && a.claim.Some? && a.claim.value.active && a.claim.value.sensitivity != Secret && IsAnomaly(a.claim.value)
      && a.actorTenant.Some? && Named(a.claim.value.sequenceId) && IsSequenceOf(a.sequence, a.claim.value)
      && Named(a.claim.value.anomalyId)
    ensures AnomalyAssessment(a, now).Ok? ==>
      var r, c, s := AnomalyAssessment(a, now).value, a.claim.value, a.sequence.value;
      && r.tenant == a.actorTenant.value && r.signalKey == "missing-step-anomaly:" + c.anomalyId.value
      && r.sourceType == MemoryClaimAnomaly && r.sourceRef == c.id
      && r.sourceState == "ACTIVE:" + c.anomalyId.value && r.sensitivity == c.sensitivity
      && (r.ownerPrivate <==> a.ownerPrivate) && (r.nonActionable <==> a.nonActionable)
      && r.snapshot == AnomalySnapshot(c.id, c.anomalyId.value, s.id, c.confidence, SupportOf(s), s.occurrences,
           ObservedAt(c), c.validUntil)
      && r.base == MissingStepBase(c.secondKind, c.confidence, Stability(s.support, s.occurrences), ObservedAt(c), now)
  {
  }

  /** What a missing step is refused for, in the order of the checks. */
  lemma AnomalyRefusedIff(a: Anomaly, now: Instant)
    ensures var r := AnomalyAssessment(a, now);
      && (r == Err(AnomalyNotFound) <==> a.claim.None?)
      && (r == Err(AnomalyNotActive) <==> a.claim.Some? && !a.claim.value.active)
      && (r == Err(SecretSourceExcluded) <==>
            a.claim.Some? && a.claim.value.active && a.claim.value.sensitivity == Secret)
      && (r == Err(AnomalySourceInvalid) <==>
            && a.claim.Some? && a.claim.value.active && a.claim.value.sensitivity != Secret
            && !IsAnomaly(a.claim.value))
      && (r == Err(AnomalyIdMissing) ==> !Named(a.claim.value.anomalyId))
      && (r == Err(AnomalySequenceMissing) ==> !Named(a.claim.value.sequenceId))
      && (r == Err(AnomalySequenceInvalid) ==> !IsSequenceOf(a.sequence, a.claim.value))
      && (r == Err(AnomalyActorInvalid) ==> a.actorTenant.None?)
  {
  }

  ghost function SupportOf(s: Claim): real {
    if s.support.None? || s.support.value <= 0.0 then 0.0
    else if s.support.value >= 1.0 then 1.0 else s.support.value
  }

  ghost function ObservedAt(c: Claim): Instant {
    match c.lastObservedAt
    case None => c.createdAt
    case Some(at) => at
  }

  /** An assessment the store takes: not secret, its signal within 128 and its source within 160 characters. */
  lemma ValidatedIff(a: Assessment, signal: Signal, reference: string)
    ensures Validated(a) == Ok((signal, reference)) <==>
      && (a.sensitivity == Normal || a.sensitivity == Private)
      && signal.tenant == a.tenant && signal.key == Normalize(a.signalKey) && reference == Normalize(a.sourceRef)
      && 1 <= |signal.key| <= 128 && 1 <= |reference| <= 160
    ensures Validated(a) == Err(SecretSourceExcluded) <==> a.sensitivity == Secret
    ensures Validated(a) == Err(SensitivityInvalid) <==> a.sensitivity == Unknown
  {
    hide Normalize;
  }

  // ----- rows -----

  ghost predicate MutedAt(r: Row, now: Instant) {
    r.suppressedUntil.Some? && now < r.suppressedUntil.value
  }

  /** A class held below a suggestion where the owner's controls say so. */
  ghost function Held(c: Class, ownerPrivate: bool, nonActionable: bool): Class {
    if c.OwnerSuggestion? && ownerPrivate then ReasoningQueue
    else if c.OwnerSuggestion? && nonActionable then ReasoningQueue
    else c
  }

  /** The code that says which control held it. */
  ghost predicate SaysHeld(code: string, c: Class, ownerPrivate: bool, nonActionable: bool) {
    && c.OwnerSuggestion?
    && ((code == "OWNER_PRIVATE_ACTIONABILITY_CAP" && ownerPrivate)
        || (code == "OWNER_NON_ACTIONABLE_CAP" && nonActionable && !ownerPrivate))
  }

  /** Every column of a refreshed row: an acknowledged row stays, any other follows its suppression and its controls. */
  lemma RefreshedColumns(r: Row, ownerPrivate: bool, nonActionable: bool, now: Instant)
    ensures var n := Refreshed(r, ownerPrivate, nonActionable, now);
      if r.status == Acknowledged then n == r
      else
        && n == r.(effectiveClass := n.effectiveClass, status := n.status, reasons := n.reasons,
             updatedAt := n.updatedAt)
        && n.effectiveClass == (if MutedAt(r, now) then Ignore else Held(r.scoreClass, ownerPrivate, nonActionable))
        && n.status == (if MutedAt(r, now) then Suppressed else Active)
        && (forall code :: code in n.reasons <==>
              || (code == "OWNER_SUPPRESSED" && MutedAt(r, now))
              || (!MutedAt(r, now) && SaysHeld(code, r.scoreClass, ownerPrivate, nonActionable))
              || (code in r.reasons && code != "OWNER_SUPPRESSED"
                  && code != "OWNER_PRIVATE_ACTIONABILITY_CAP" && code != "OWNER_NON_ACTIONABLE_CAP"))
        && n.updatedAt
             == (if n.effectiveClass == r.effectiveClass && n.status == r.status && n.reasons == r.reasons
                 then r.updatedAt else now)
  {
  }

  /** The row before this one was suggested within its cooldown, and this one scores hardly more. */
  ghost predicate CoolsDown(prior: Option<Row>, score: int, now: Instant) {
    && prior.Some? && prior.value.effectiveClass == OwnerSuggestion
    && prior.value.cooldownUntil.Some? && now < prior.value.cooldownUntil.value
    && score - prior.value.score <= 150_000
  }

  /** Every column of a new row: what it takes from its source, from its score and from the row before it. */
  lemma FreshColumns(a: Assessment, signal: Signal, reference: string, prior: Option<Row>, now: Instant, id: nat)
    ensures var n := FreshRow(a, signal, reference, prior, now, id);
      var muted := prior.Some? && MutedAt(prior.value, now);
      var held := Held(n.scoreClass, a.ownerPrivate, a.nonActionable);
      var cooled := !muted && held == OwnerSuggestion && CoolsDown(prior, n.score, now);
      && n.id == id && n.signal == signal && n.snapshot == a.snapshot
      && n.sourceType == a.sourceType && n.sourceRef == reference && n.sourceState == a.sourceState
      && n.sensitivity == a.sensitivity && n.createdAt == now && n.updatedAt == now
      && n.components == a.base.(novelty := NoveltyOf(prior, a.sourceState))
      && n.score == Score(n.components) && n.scoreClass == ClassFor(n.score)
      && n.effectiveClass == (if muted then Ignore else if cooled then ReasoningQueue else held)
      && n.status == (if muted then Suppressed else Active)
      && (muted ==>
            && n.suppressedUntil == prior.value.suppressedUntil && n.suppressedBy == prior.value.suppressedBy
            && n.suppressionReason == prior.value.suppressionReason)
      && (!muted ==> n.suppressedUntil.None? && n.suppressedBy.None? && n.suppressionReason.None?)
      && n.cooldownUntil
           == (if cooled then prior.value.cooldownUntil
               else if n.effectiveClass == OwnerSuggestion then Some(now + 21_600_000_000) else None)
      && n.acknowledgedAt.None? && n.acknowledgedBy.None? && n.decisionRef.None?
      && (prior.Some? ==> n.supersedes == Some(prior.value.id)) && (prior.None? ==> n.supersedes.None?)
      && (forall code :: code in n.reasons <==>
            || code in Codes(n.components)
            || SaysHeld(code, n.scoreClass, a.ownerPrivate, a.nonActionable)
            || (code == "OWNER_SUPPRESSED" && muted)
            || (code == "DEDUP_SUPPRESSION_WINDOW" && cooled))
  {
    hide Score, ClassFor, Codes;
  }

  ghost function NoveltyOf(prior: Option<Row>, sourceState: string): int {
    match prior
    case None => 1_000_000
    case Some(r) => if r.sourceState == sourceState then 400_000 else 1_000_000
  }

  /** A fresh assessment changes one other row at most: the latest one, and that only from ACTIVE to SUPERSEDED. */
  lemma FreshStepColumns(rows: Rows, a: Assessment, now: Instant, newId: nat, prior: Option<nat>, rows': Rows)
    requires FreshStep(rows, a, now, newId, prior, rows')
    ensures newId !in rows && newId in rows'
    ensures forall k | k in rows :: k in rows'
    ensures forall k | k in rows ::
      rows'[k] == if prior == Some(k) && rows[k].status == Active
                  then rows[k].(status := Superseded, updatedAt := now) else rows[k]
    ensures forall k | k in rows' :: k in rows || k == newId
    ensures prior.Some? ==> prior.value in rows
    ensures rows'[newId] == FreshRow(a, Signal(a.tenant, Normalize(a.signalKey)), Normalize(a.sourceRef),
      if prior.Some? then Some(rows[prior.value]) else None, now, newId)
    ensures IsNewest(rows, Signal(a.tenant, Normalize(a.signalKey)), prior)
    ensures forall k | k in rows && rows[k].signal == Signal(a.tenant, Normalize(a.signalKey)) ::
      rows[k].snapshot != a.snapshot
  {
    hide FreshRow, Normalize, Validated, IsLatest, IsNewest, IsExact;
    SignalOf(a);
    var signal := Signal(a.tenant, Normalize(a.signalKey));
    NewestIsLatest(rows, signal, prior);
    assert forall k | k in rows && k != newId :: rows'[k] == Supersede(rows, prior, now)[k];
    forall k | k in rows && rows[k].signal == signal
      ensures rows[k].snapshot != a.snapshot
    {
      ExactRow(rows, k, signal, a.snapshot);
    }
  }

  lemma ExactRow(rows: Rows, k: nat, s: Signal, snapshot: Snapshot)
    requires k in rows && rows[k].signal == s
    ensures IsExact(rows, k, s, snapshot) <==> rows[k].snapshot == snapshot
  {
  }

  /** The row of a signal that was updated last, and of several the one with the greatest id. */
  ghost predicate IsNewest(rows: Rows, s: Signal, newest: Option<nat>) {
    match newest
    case None => forall k | k in rows :: rows[k].signal != s
    case Some(n) =>
      && n in rows && rows[n].signal == s
      && forall k | k in rows && rows[k].signal == s ::
           || rows[k].updatedAt < rows[n].updatedAt
           || (rows[k].updatedAt == rows[n].updatedAt && rows[k].id <= rows[n].id)
  }

  lemma NewestIsLatest(rows: Rows, s: Signal, newest: Option<nat>)
    ensures IsNewest(rows, s, newest) <==> IsLatest(rows, s, newest)
    ensures IsNewest(rows, s, newest) && newest.Some? ==> newest.value in rows
  {
    assert forall k :: Of(rows, k, s) <==> k in rows && rows[k].signal == s;
  }

  lemma SignalOf(a: Assessment)
    requires Validated(a).Ok?
    ensures Validated(a).value == (Signal(a.tenant, Normalize(a.signalKey)), Normalize(a.sourceRef))
  {
    hide Normalize;
  }

  /** A refresh touches the one row of the same signal and snapshot. */
  lemma RefreshStepColumns(rows: Rows, a: Assessment, now: Instant, id: nat, rows': Rows)
    requires RefreshStep(rows, a, now, id, rows')
    ensures id in rows && rows[id].snapshot == a.snapshot
    ensures rows[id].signal == Signal(a.tenant, Normalize(a.signalKey))
    ensures rows'.Keys == rows.Keys && forall k | k in rows && k != id :: rows'[k] == rows[k]
  {
    hide Refreshed, Normalize;
    SignalOf(a);
  }

  // ----- suggestions -----

  /** What a row says is still so of its source. */
  ghost predicate StillSo(r: Row, w: Surroundings) {
    match r.sourceType
    case ObligationInstance =>
      && r.sourceRef in w.instances && w.instances[r.sourceRef].sensitivity != Secret
      && w.instances[r.sourceRef].definitionId in w.definitions
      && w.definitions[w.instances[r.sourceRef].definitionId].active
      && !w.definitions[w.instances[r.sourceRef].definitionId].secret
      && var i := w.instances[r.sourceRef];
      && r.sourceState == i.state + ":" + i.reconciliationStatus + ":" + UncertaintyOf(i)
    case MemoryClaimAnomaly =>
      && r.sourceRef in w.claims && w.claims[r.sourceRef].active && w.claims[r.sourceRef].sensitivity != Secret
      && r.sourceRef !in w.withheld
  }

  /** A row is suggested exactly when it is active, unmuted, a candidate and not secret, and its source still is so. */
  lemma SuggestedIff(r: Row, w: Surroundings, now: Instant, c: Candidate)
    ensures Suggestion(r, w, now) == Some(c) <==>
      && r.sensitivity != Secret && r.status == Active && r.effectiveClass == OwnerSuggestion && !MutedAt(r, now)
      && StillSo(r, w)
      && c.id == r.id && c.signal == r.signal && c.sourceType == r.sourceType && c.sourceRef == r.sourceRef
      && c.score == r.score && c.generatedAt == now
  {
  }
}
