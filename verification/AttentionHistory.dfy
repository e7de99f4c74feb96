/**
 The history of one signal. Under a discipline the latest row is the only one that can be
 active: the clock does not go back, an id sorts above those of the rows that bear the same
 stamp, owners act on the latest row, and no snapshot before the latest returns. The engine
 itself keeps to none of this; its ids are random. Without the discipline, the events that
 break the unique index, and those that end a suppression early, are told apart exactly.
 */
module AttentionHistory {
  import opened Common
  import opened AttentionScore
  import opened AttentionStore
  import opened AttentionRuns

  /** uq_attention_assessment_active_signal, for one signal. */
  ghost predicate UniqueActive(rows: Rows, s: Signal) {
    forall p, q | Of(rows, p, s) && Of(rows, q, s) && rows[p].status == Active && rows[q].status == Active :: p == q
  }

  /** The latest row was updated by `clock` at the latest, and no other row is active. */
  ghost predicate History(rows: Rows, s: Signal, latest: Option<nat>, clock: Instant) {
    && WellKeyed(rows)
    && IsLatest(rows, s, latest)
    && (latest.Some? ==>
          && rows[latest.value].updatedAt <= clock
          && forall id | Of(rows, id, s) && id != latest.value :: rows[id].status != Active)
  }

  lemma HistoryIsUniqueActive(rows: Rows, s: Signal, latest: Option<nat>, clock: Instant)
    requires History(rows, s, latest, clock)
    ensures UniqueActive(rows, s)
  {
  }

  lemma LatestIsUnique(rows: Rows, s: Signal, p: Option<nat>, q: Option<nat>)
    requires WellKeyed(rows) && IsLatest(rows, s, p) && IsLatest(rows, s, q)
    ensures p == q
  {
    if p.Some? && q.Some? {
      assert Later(rows[p.value], rows[q.value]) && Later(rows[q.value], rows[p.value]);
    }
  }

  /** An event keeps the discipline with respect to one signal. */
  ghost predicate Orderly(rows: Rows, e: Event, s: Signal) {
    match e
    case AssessObligation(_, _, now, newId) => OrderlyAssessment(rows, AssessmentOf(e), now, newId, s)
    case AssessMissingStep(_, now, newId) => OrderlyAssessment(rows, AssessmentOf(e), now, newId, s)
    case Suppress(id, _, _) => Of(rows, id, s) ==> IsLatest(rows, s, Some(id))
    case Acknowledge(id, _) => Of(rows, id, s) ==> IsLatest(rows, s, Some(id))
  }

  ghost predicate OrderlyAssessment(rows: Rows, r: Result<Assessment, Error>, now: Instant, newId: nat, s: Signal) {
    r.Ok? && Validated(r.value).Ok? && Validated(r.value).value.0 == s ==>
      && (forall id | IsExact(rows, id, s, r.value.snapshot) :: IsLatest(rows, s, Some(id)))
      && SortsAbove(rows, s, now, newId)
  }

  /**
   The id sorts above those of the rows that will bear the stamp of its row: the rows of the
   same instant, and the active row, which is superseded.
   */
  ghost predicate SortsAbove(rows: Rows, s: Signal, now: Instant, newId: nat) {
    forall id: nat | Of(rows, id, s) && (rows[id].updatedAt == now || rows[id].status == Active) :: id < newId
  }

  // ----- one event -----

  lemma RefreshKeepsHistory(rows: Rows, a: Assessment, now: Instant, id: nat, rows': Rows, s: Signal,
        latest: Option<nat>, clock: Instant)
    requires History(rows, s, latest, clock) && clock <= now
    requires RefreshStep(rows, a, now, id, rows')
    requires Of(rows, id, s) ==> IsLatest(rows, s, Some(id))
    ensures History(rows', s, latest, now)
  {
    hide Validated;
    var r := Refreshed(rows[id], a.ownerPrivate, a.nonActionable, now);
    if r == rows[id] {
      assert rows' == rows;
    } else {
      OwnerKeepsHistory(rows, id, r, now, s, latest, clock);
    }
  }

  /** Superseding the latest row leaves no active row, so the insert that follows is not refused. */
  lemma SupersedeKeepsHistory(rows: Rows, s: Signal, latest: Option<nat>, now: Instant, clock: Instant)
    requires History(rows, s, latest, clock) && clock <= now
    requires latest.Some? ==> latest.value in rows
    ensures History(Supersede(rows, latest, now), s, latest, now)
    ensures forall id | Of(Supersede(rows, latest, now), id, s) :: Supersede(rows, latest, now)[id].status != Active
    ensures Supersede(rows, latest, now).Keys == rows.Keys
  {
  }

  lemma InsertKeepsHistory(rows: Rows, s: Signal, latest: Option<nat>, now: Instant, row: Row)
    requires History(rows, s, latest, now)
    requires forall id | Of(rows, id, s) :: rows[id].status != Active
    requires row.id !in rows && row.signal == s && row.updatedAt == now
    requires forall id: nat | Of(rows, id, s) && rows[id].updatedAt == now :: id < row.id
    ensures History(rows[row.id := row], s, Some(row.id), now)
  {
    var rows' := rows[row.id := row];
    assert rows'[row.id] == row && Of(rows', row.id, s);
    forall id: nat | Of(rows', id, s) && id != row.id
      ensures Of(rows, id, s) && rows'[id] == rows[id] && rows[id].updatedAt <= now
    {
      if latest.Some? {
        assert Later(rows[latest.value], rows[id]);
      }
    }
  }

  lemma FreshHere(rows: Rows, a: Assessment, now: Instant, newId: nat, prior: Option<nat>, rows': Rows, s: Signal,
        latest: Option<nat>, clock: Instant)
    requires History(rows, s, latest, clock) && clock <= now
    requires FreshStep(rows, a, now, newId, prior, rows') && Validated(a).value.0 == s
    requires SortsAbove(rows, s, now, newId)
    ensures prior == latest
    ensures History(rows', s, Some(newId), now)
  {
    hide Validated, Score, ClassFor, Codes;
    LatestIsUnique(rows, s, prior, latest);
    SupersedeKeepsHistory(rows, s, latest, now, clock);
    SupersededStamps(rows, s, latest, now, clock);
    var row := FreshRow(a, s, Validated(a).value.1, RowAt(rows, prior), now, newId);
    InsertKeepsHistory(Supersede(rows, prior, now), s, latest, now, row);
  }

  /** Superseding stamps the active row, which is the latest one, and no other. */
  lemma SupersededStamps(rows: Rows, s: Signal, latest: Option<nat>, now: Instant, clock: Instant)
    requires History(rows, s, latest, clock) && clock <= now
    requires latest.Some? ==> latest.value in rows
    ensures var rows' := Supersede(rows, latest, now);
      forall id: nat | Of(rows', id, s) && rows'[id].updatedAt == now ::
        Of(rows, id, s) && (rows[id].updatedAt == now || rows[id].status == Active)
  {
  }

  /** A fresh row is the latest of its signal exactly when its id sorts above those that bear its stamp. */
  lemma FreshIsLatestIff(rows: Rows, a: Assessment, now: Instant, newId: nat, prior: Option<nat>, rows': Rows,
        s: Signal, latest: Option<nat>, clock: Instant)
    requires History(rows, s, latest, clock) && clock <= now
    requires FreshStep(rows, a, now, newId, prior, rows') && Validated(a).value.0 == s
    ensures IsLatest(rows', s, Some(newId)) <==> SortsAbove(rows, s, now, newId)
  {
    hide FreshStep, Validated, Score, ClassFor, Codes;
    if SortsAbove(rows, s, now, newId) {
      FreshHere(rows, a, now, newId, prior, rows', s, latest, clock);
    } else {
      var id: nat :| Of(rows, id, s) && (rows[id].updatedAt == now || rows[id].status == Active) && id >= newId;
      StampedAlike(rows, a, now, newId, prior, rows', s, latest, clock, id);
    }
  }

  lemma StampedAlike(rows: Rows, a: Assessment, now: Instant, newId: nat, prior: Option<nat>, rows': Rows, s: Signal,
        latest: Option<nat>, clock: Instant, id: nat)
    requires History(rows, s, latest, clock) && clock <= now
    requires FreshStep(rows, a, now, newId, prior, rows') && Validated(a).value.0 == s
    requires Of(rows, id, s) && (rows[id].updatedAt == now || rows[id].status == Active)
    ensures Of(rows', id, s) && newId in rows' && id != newId
    ensures rows'[id].updatedAt == rows'[newId].updatedAt == now && rows'[id].id == id && rows'[newId].id == newId
  {
    hide Validated, Score, ClassFor, Codes;
    LatestIsUnique(rows, s, prior, latest);
  }

  lemma FreshElsewhereKeepsHistory(rows: Rows, a: Assessment, now: Instant, newId: nat, prior: Option<nat>, rows': Rows,
        s: Signal, latest: Option<nat>, clock: Instant)
    requires History(rows, s, latest, clock) && clock <= now
    requires FreshStep(rows, a, now, newId, prior, rows') && Validated(a).value.0 != s
    ensures History(rows', s, latest, now)
  {
    hide Validated, Score, ClassFor, Codes;
    FreshElsewhere(rows, a, now, newId, prior, rows', s);
    FreshIsKeyed(rows, a, now, newId, prior, rows');
  }

  lemma FreshIsKeyed(rows: Rows, a: Assessment, now: Instant, newId: nat, prior: Option<nat>, rows': Rows)
    requires WellKeyed(rows) && FreshStep(rows, a, now, newId, prior, rows')
    ensures WellKeyed(rows')
  {
    hide Validated, Score, ClassFor, Codes;
  }

  lemma OwnerKeepsHistory(rows: Rows, id: nat, r: Row, now: Instant, s: Signal, latest: Option<nat>, clock: Instant)
    requires History(rows, s, latest, clock) && clock <= now
    requires id in rows && r.id == id && r.signal == rows[id].signal && r.updatedAt == now
    requires Of(rows, id, s) ==> IsLatest(rows, s, Some(id))
    ensures History(rows[id := r], s, latest, now)
  {
    var rows' := rows[id := r];
    assert forall k: nat :: Of(rows', k, s) <==> Of(rows, k, s);
    if Of(rows, id, s) {
      assert IsLatest(rows, s, Some(latest.value)) && latest.value == id;
    }
  }

  lemma HistoryWaits(rows: Rows, s: Signal, latest: Option<nat>, clock: Instant, now: Instant)
    requires History(rows, s, latest, clock) && clock <= now
    ensures History(rows, s, latest, now)
  {
  }

  /** Every orderly event keeps the history. */
  lemma NextKeepsHistory(rows: Rows, e: Event, rows': Rows, s: Signal, latest: Option<nat>, clock: Instant)
      returns (latest': Option<nat>)
    requires History(rows, s, latest, clock) && clock <= e.now
    requires Next(rows, e, rows') && Orderly(rows, e, s)
    ensures History(rows', s, latest', e.now)
  {
    hide History, FreshRow, Refreshed, Validated, AssessmentOf, IsLatest;
    latest' := latest;
    HistoryWaits(rows, s, latest, clock, e.now);
    if rows' == rows {
    } else if e.Suppress? {
      var reason, owner, reference :|
        rows' == rows[e.id := SuppressedRow(rows[e.id], e.until, reason, owner, reference, e.now)];
      KeyOf(rows, s, latest, clock, e.id);
      OwnerKeepsHistory(rows, e.id, rows'[e.id], e.now, s, latest, clock);
    } else if e.Acknowledge? {
      var owner, reference :| rows' == rows[e.id := AcknowledgedRow(rows[e.id], owner, reference, e.now)];
      KeyOf(rows, s, latest, clock, e.id);
      OwnerKeepsHistory(rows, e.id, rows'[e.id], e.now, s, latest, clock);
    } else if prior :| FreshStep(rows, AssessmentOf(e).value, e.now, e.newId, prior, rows') {
      FreshIsValid(rows, e, rows', prior);
      if Validated(AssessmentOf(e).value).value.0 == s {
        NewIdSortsAbove(rows, e, s);
        FreshHere(rows, AssessmentOf(e).value, e.now, e.newId, prior, rows', s, latest, clock);
        latest' := Some(e.newId);
      } else {
        FreshElsewhereKeepsHistory(rows, AssessmentOf(e).value, e.now, e.newId, prior, rows', s, latest, clock);
      }
    } else {
      var id :| RefreshStep(rows, AssessmentOf(e).value, e.now, id, rows');
      RefreshKeepsHistory(rows, AssessmentOf(e).value, e.now, id, rows', s, latest, clock);
    }
  }

  lemma NewIdSortsAbove(rows: Rows, e: Event, s: Signal)
    requires e.AssessObligation? || e.AssessMissingStep?
    requires Orderly(rows, e, s) && AssessmentOf(e).Ok? && Validated(AssessmentOf(e).value).Ok?
    requires Validated(AssessmentOf(e).value).value.0 == s
    ensures SortsAbove(rows, s, e.now, e.newId)
  {
  }

  lemma KeyOf(rows: Rows, s: Signal, latest: Option<nat>, clock: Instant, id: nat)
    requires History(rows, s, latest, clock) && id in rows
    ensures rows[id].id == id
  {
  }

  // ----- whole lives -----

  ghost predicate OrderlyLife(l: Life, s: Signal) {
    && IsLife(l)
    && (forall i {:trigger Orderly(l.states[i], l.events[i], s)} | 0 <= i < |l.events| ::
          Orderly(l.states[i], l.events[i], s))
    && (forall i, j | 0 <= i <= j < |l.events| :: l.events[i].now <= l.events[j].now)
  }

  /** The last instant the store has seen before state `i`. */
  function ClockAt(l: Life, i: nat): Instant
    requires i <= |l.events|
  {
    if i > 0 then l.events[i - 1].now else if |l.events| > 0 then l.events[0].now else 0
  }

  lemma LifeStep(l: Life, s: Signal, i: nat)
    requires OrderlyLife(l, s) && i < |l.events|
    ensures i + 1 < |l.states| && Next(l.states[i], l.events[i], l.states[i + 1])
    ensures Orderly(l.states[i], l.events[i], s) && ClockAt(l, i) <= l.events[i].now == ClockAt(l, i + 1)
  {
    hide Next, Orderly;
    assert Next(l.states[i], l.events[i], l.states[i + 1]);
    assert Orderly(l.states[i], l.events[i], s);
  }

  lemma {:induction false} AlwaysHistory(l: Life, s: Signal, i: nat) returns (latest: Option<nat>)
    requires OrderlyLife(l, s) && i < |l.states|
    ensures History(l.states[i], s, latest, ClockAt(l, i))
  {
    hide Next, Orderly;
    if i == 0 {
      latest := None;
    } else {
      var k := i - 1;
      latest := AlwaysHistory(l, s, k);
      LifeStep(l, s, k);
      latest := NextKeepsHistory(l.states[k], l.events[k], l.states[k + 1], s, latest, ClockAt(l, k));
    }
  }

  /** In an orderly life at most the latest row of a signal is active, in every state. */
  lemma OnlyTheLatestIsActive(l: Life, s: Signal, i: nat, id: nat)
    requires OrderlyLife(l, s) && i < |l.states|
    requires Of(l.states[i], id, s) && l.states[i][id].status == Active
    ensures IsLatest(l.states[i], s, Some(id))
    ensures UniqueActive(l.states[i], s)
  {
    hide Next, Orderly;
    var latest := AlwaysHistory(l, s, i);
    HistoryIsUniqueActive(l.states[i], s, latest, ClockAt(l, i));
  }

  /** So the unique index refuses no statement: neither the superseding update nor the insert behind it. */
  lemma IndexNeverRefuses(l: Life, s: Signal, i: nat, prior: Option<nat>)
    requires OrderlyLife(l, s) && i < |l.events|
    requires Fresh(l.states[i], l.events[i], l.states[i + 1], prior)
    requires Validated(AssessmentOf(l.events[i]).value).value.0 == s
    requires prior.Some? ==> prior.value in l.states[i]
    ensures UniqueActive(Supersede(l.states[i], prior, l.events[i].now), s)
    ensures UniqueActive(l.states[i + 1], s)
  {
    hide FreshStep, Orderly, Validated, AssessmentOf, History, Next;
    var rows, e := l.states[i], l.events[i];
    var latest := AlwaysHistory(l, s, i);
    LifeStep(l, s, i);
    FreshIsValid(rows, e, l.states[i + 1], prior);
    NewIdSortsAbove(rows, e, s);
    FreshHere(rows, AssessmentOf(e).value, e.now, e.newId, prior, l.states[i + 1], s, latest, ClockAt(l, i));
    SupersedeKeepsHistory(rows, s, latest, e.now, ClockAt(l, i));
    HistoryIsUniqueActive(Supersede(rows, prior, e.now), s, latest, e.now);
    HistoryIsUniqueActive(l.states[i + 1], s, Some(e.newId), e.now);
  }

  // ----- without the discipline -----

  /** Some active row of the signal is not the one with this id. */
  ghost predicate ActiveBeside(rows: Rows, s: Signal, id: Option<nat>) {
    exists k: nat :: Of(rows, k, s) && rows[k].status == Active && Some(k) != id
  }

  /**
   Whatever the clock and the ids are, a fresh snapshot breaks the index exactly when the row
   the engine takes for the latest is not the active one, and does not carry a suppression on.
   */
  lemma FreshBreaksIndexIff(rows: Rows, a: Assessment, now: Instant, newId: nat, prior: Option<nat>, rows': Rows,
        s: Signal)
    requires UniqueActive(rows, s) && FreshStep(rows, a, now, newId, prior, rows') && Validated(a).value.0 == s
    requires prior.Some? ==> prior.value in rows
    ensures !UniqueActive(rows', s) <==>
      ActiveBeside(rows, s, prior) && (prior.Some? ==> !SuppressedAt(rows[prior.value], now))
  {
    hide Validated, Score, ClassFor, Codes, IsLatest;
    assert Of(rows', newId, s) && newId !in rows;
    assert rows'[newId].status == Active <==> (prior.Some? ==> !SuppressedAt(rows[prior.value], now));
    forall k: nat
      ensures Of(rows', k, s) && k != newId && rows'[k].status == Active <==>
        Of(rows, k, s) && rows[k].status == Active && Some(k) != prior
    {
    }
    if ActiveBeside(rows, s, prior) {
      var k: nat :| Of(rows, k, s) && rows[k].status == Active && Some(k) != prior;
      assert Of(rows', k, s) && rows'[k].status == Active;
    }
  }

  /** A return to an earlier snapshot breaks it exactly when it revives that row beside an active one. */
  lemma ReturnBreaksIndexIff(rows: Rows, a: Assessment, now: Instant, id: nat, rows': Rows, s: Signal)
    requires UniqueActive(rows, s) && RefreshStep(rows, a, now, id, rows') && Of(rows, id, s)
    ensures !UniqueActive(rows', s) <==>
      ActiveBeside(rows, s, Some(id)) && rows[id].status != Acknowledged && !SuppressedAt(rows[id], now)
  {
    hide Validated;
    assert Of(rows', id, s);
    assert forall k: nat :: Of(rows', k, s) <==> Of(rows, k, s);
    assert forall k: nat | Of(rows, k, s) && k != id :: rows'[k] == rows[k];
    if ActiveBeside(rows, s, Some(id)) {
      var k: nat :| Of(rows, k, s) && rows[k].status == Active && Some(k) != Some(id);
      assert Of(rows', k, s) && rows'[k].status == Active;
    }
  }

  /** An owner never breaks it. */
  lemma OwnersKeepIndex(rows: Rows, id: nat, until: Instant, now: Instant, rows': Rows, s: Signal)
    requires UniqueActive(rows, s)
    requires SuppressStep(rows, id, until, now, rows') || AcknowledgeStep(rows, id, now, rows')
    ensures UniqueActive(rows', s)
  {
    if SuppressStep(rows, id, until, now, rows') {
      var reason, owner, reference :|
        rows' == rows[id := SuppressedRow(rows[id], until, reason, owner, reference, now)];
    } else if rows[id].status != Acknowledged {
      var owner, reference :| rows' == rows[id := AcknowledgedRow(rows[id], owner, reference, now)];
    }
  }

  /**
   Row `k` comes before a row that is minted now, in the order that finds the latest: the
   active row is superseded and bears the same stamp, the others keep their own.
   */
  predicate Outranks(rows: Rows, k: nat, now: Instant, newId: nat)
    requires k in rows
  {
    var stamp := if rows[k].status == Active then now else rows[k].updatedAt;
    stamp > now || (stamp == now && k > newId)
  }

  /**
   Of three snapshots, with any clock and any ids, the third takes another row than the second
   for the latest exactly when some row outranks the second: the one it superseded, if the
   second id sorts below, or one stamped later or at the same instant. The index then breaks,
   unless that row carries a suppression on.
   */
  lemma ClockOrIdsBreakIndexIff(rows: Rows, s: Signal, n: nat, clock: Instant, a: Assessment, now: Instant,
        second: nat, mid: Rows, b: Assessment, later: Instant, third: nat, prior: Option<nat>, rows': Rows)
    requires History(rows, s, Some(n), clock) && rows[n].status == Active
    requires FreshStep(rows, a, now, second, Some(n), mid) && Validated(a).value.0 == s && mid[second].status == Active
    requires FreshStep(mid, b, later, third, prior, rows') && Validated(b).value.0 == s
    ensures prior != Some(second) <==> exists k: nat :: Of(rows, k, s) && Outranks(rows, k, now, second)
    ensures prior.Some? && prior.value in mid
    ensures !UniqueActive(rows', s) <==> prior != Some(second) && !SuppressedAt(mid[prior.value], later)
  {
    hide FreshStep, Validated, History, IsLatest, Outranks;
    SecondSnapshot(rows, s, n, clock, a, now, second, mid);
    FreshFacts(mid, b, later, third, prior, rows', s, second);
    SecondIsLatestIff(rows, s, n, now, second, mid, prior);
    FreshBreaksIndexIff(mid, b, later, third, prior, rows', s);
  }

  lemma FreshFacts(rows: Rows, a: Assessment, now: Instant, newId: nat, prior: Option<nat>, rows': Rows, s: Signal,
        id: nat)
    requires FreshStep(rows, a, now, newId, prior, rows') && Validated(a).value.0 == s && Of(rows, id, s)
    ensures IsLatest(rows, s, prior) && prior.Some? && Of(rows, prior.value, s)
  {
    hide Validated;
  }

  lemma SecondIsLatestIff(rows: Rows, s: Signal, n: nat, now: Instant, second: nat, mid: Rows, prior: Option<nat>)
    requires WellKeyed(rows) && WellKeyed(mid) && Of(rows, n, s) && rows[n].status == Active
    requires second !in rows && Of(mid, second, s) && mid[second].updatedAt == now
    requires mid == rows[n := SupersededRow(rows[n], now)][second := mid[second]]
    requires forall k: nat | Of(rows, k, s) && k != n :: rows[k].status != Active
    requires IsLatest(mid, s, prior)
    ensures prior != Some(second) <==> exists k: nat :: Of(rows, k, s) && Outranks(rows, k, now, second)
  {
    forall k: nat | Of(rows, k, s)
      ensures Of(mid, k, s) && k != second && (Outranks(rows, k, now, second) <==> !Later(mid[second], mid[k]))
    {
    }
    if prior != Some(second) {
      assert Of(rows, prior.value, s) && Later(mid[prior.value], mid[second]);
      assert Outranks(rows, prior.value, now, second);
    }
  }

  /** With a clock that goes forward this is decided by the two ids alone. */
  lemma IdsBreakIndexIff(rows: Rows, s: Signal, n: nat, clock: Instant, a: Assessment, now: Instant, second: nat,
        mid: Rows, b: Assessment, later: Instant, third: nat, prior: Option<nat>, rows': Rows)
    requires History(rows, s, Some(n), clock) && clock < now <= later && rows[n].status == Active
    requires FreshStep(rows, a, now, second, Some(n), mid) && Validated(a).value.0 == s && mid[second].status == Active
    requires FreshStep(mid, b, later, third, prior, rows') && Validated(b).value.0 == s
    ensures prior == Some(if second < n then n else second)
    ensures !UniqueActive(rows', s) <==> second < n
  {
    hide FreshStep, Validated;
    ClockOrIdsBreakIndexIff(rows, s, n, clock, a, now, second, mid, b, later, third, prior, rows');
    SecondSnapshot(rows, s, n, clock, a, now, second, mid);
    FreshFacts(mid, b, later, third, prior, rows', s, second);
    forall k: nat | Of(rows, k, s)
      ensures Outranks(rows, k, now, second) <==> k == n && second < n
    {
      assert Later(rows[n], rows[k]);
    }
    assert Outranks(rows, n, now, second) <==> second < n;
    if second < n {
      assert prior.value in mid && Later(mid[prior.value], mid[n]);
      assert prior.value == n;
    }
  }

  /** After the second snapshot the old row is superseded and bears the same stamp as the new one. */
  lemma SecondSnapshot(rows: Rows, s: Signal, n: nat, clock: Instant, a: Assessment, now: Instant, second: nat,
        mid: Rows)
    requires History(rows, s, Some(n), clock) && rows[n].status == Active
    requires FreshStep(rows, a, now, second, Some(n), mid) && Validated(a).value.0 == s && mid[second].status == Active
    ensures WellKeyed(rows) && WellKeyed(mid) && Of(rows, n, s) && second !in rows && Of(mid, second, s)
    ensures mid == rows[n := SupersededRow(rows[n], now)][second := mid[second]] && mid[second].updatedAt == now
    ensures !SuppressedAt(rows[n], now)
    ensures forall k: nat | Of(rows, k, s) && k != n :: rows[k].status != Active
    ensures UniqueActive(mid, s) && forall k: nat | Of(mid, k, s) && k != second :: mid[k].status != Active
    ensures forall id: nat | Of(mid, id, s) && id != second :: ActiveBeside(mid, s, Some(id))
    ensures !ActiveBeside(mid, s, Some(second))
  {
    hide Validated, Score, ClassFor, Codes;
    assert mid == rows[n := SupersededRow(rows[n], now)][second := mid[second]];
    assert forall k: nat | Of(mid, k, s) && k != second :: Of(rows, k, s);
    assert Of(mid, second, s) && mid[second].status == Active;
  }

  /** A row that is stamped now comes before the others of its signal: it does if the clock does not go back. */
  ghost predicate StaysLatest(rows: Rows, s: Signal, id: nat, now: Instant) {
    forall k: nat | Of(rows, k, s) && k != id ::
      rows[k].updatedAt < now || (rows[k].updatedAt == now && k < id)
  }

  /**
   An owner who suppresses an older row makes it the latest one, unless the clock went back. The
   next fresh snapshot then breaks the index exactly when the row that was latest before is active
   and the suppression is over.
   */
  lemma SuppressingOlderRowBreaksIndexIff(rows: Rows, s: Signal, n: nat, clock: Instant, id: nat, until: Instant,
        now: Instant, mid: Rows, a: Assessment, later: Instant, newId: nat, prior: Option<nat>, rows': Rows)
    requires History(rows, s, Some(n), clock)
    requires Of(rows, id, s) && id != n && SuppressStep(rows, id, until, now, mid)
    requires FreshStep(mid, a, later, newId, prior, rows') && Validated(a).value.0 == s
    ensures prior == Some(if StaysLatest(rows, s, id, now) then id else n)
    ensures !UniqueActive(rows', s) <==>
      StaysLatest(rows, s, id, now) && rows[n].status == Active && until <= later
  {
    hide FreshStep, Validated, History, StaysLatest, IsLatest;
    var reason, owner, reference :|
      mid == rows[id := SuppressedRow(rows[id], until, reason, owner, reference, now)];
    FreshFacts(mid, a, later, newId, prior, rows', s, id);
    OlderRowStamped(rows, s, n, clock, id, now, mid, prior);
    FreshBreaksIndexIff(mid, a, later, newId, prior, rows', s);
  }

  /** Likewise when an owner acknowledges one. */
  lemma AcknowledgingOlderRowBreaksIndexIff(rows: Rows, s: Signal, n: nat, clock: Instant, id: nat, now: Instant,
        mid: Rows, a: Assessment, later: Instant, newId: nat, prior: Option<nat>, rows': Rows)
    requires History(rows, s, Some(n), clock)
    requires Of(rows, id, s) && id != n && rows[id].status != Acknowledged && AcknowledgeStep(rows, id, now, mid)
    requires FreshStep(mid, a, later, newId, prior, rows') && Validated(a).value.0 == s
    ensures prior == Some(if StaysLatest(rows, s, id, now) then id else n)
    ensures !UniqueActive(rows', s) <==>
      StaysLatest(rows, s, id, now) && rows[n].status == Active && !SuppressedAt(rows[id], later)
  {
    hide FreshStep, Validated, History, StaysLatest, IsLatest;
    var owner, reference :| mid == rows[id := AcknowledgedRow(rows[id], owner, reference, now)];
    FreshFacts(mid, a, later, newId, prior, rows', s, id);
    OlderRowStamped(rows, s, n, clock, id, now, mid, prior);
    FreshBreaksIndexIff(mid, a, later, newId, prior, rows', s);
  }

  /** An older row that is stamped now, and not activated, leaves at most the latest one active. */
  lemma OlderRowStamped(rows: Rows, s: Signal, n: nat, clock: Instant, id: nat, now: Instant, mid: Rows,
        prior: Option<nat>)
    requires History(rows, s, Some(n), clock) && Of(rows, id, s) && id != n
    requires id in mid && mid == rows[id := mid[id]] && mid[id].signal == s && mid[id].id == rows[id].id
    requires mid[id].updatedAt == now && mid[id].status != Active && IsLatest(mid, s, prior)
    ensures Of(rows, n, s) && prior == Some(if StaysLatest(rows, s, id, now) then id else n)
    ensures UniqueActive(mid, s) && Of(mid, n, s) && mid[n] == rows[n]
    ensures ActiveBeside(mid, s, prior) <==> StaysLatest(rows, s, id, now) && rows[n].status == Active
  {
    assert Of(mid, id, s) && Of(mid, n, s);
    assert forall k: nat | Of(mid, k, s) && k != id :: Of(rows, k, s) && mid[k] == rows[k] && Later(rows[n], rows[k]);
    assert StaysLatest(rows, s, id, now) ==> IsLatest(mid, s, Some(id));
    assert !StaysLatest(rows, s, id, now) ==> IsLatest(mid, s, Some(n));
    LatestIsUnique(mid, s, prior, Some(if StaysLatest(rows, s, id, now) then id else n));
    assert forall k: nat | Of(mid, k, s) && k != n :: mid[k].status != Active;
  }

  // ----- from a suppression to its end -----

  /** No row of the signal is active, and its latest row carries the suppression. */
  ghost predicate Muted(rows: Rows, s: Signal, n: nat, until: Instant) {
    && WellKeyed(rows)
    && IsLatest(rows, s, Some(n))
    && rows[n].suppressedUntil == Some(until)
    && forall id | Of(rows, id, s) :: rows[id].status != Active
  }

  /**
   An event that keeps to the latest row of the signal: no return to an older snapshot, no
   acknowledgement of an older row, no suppression. Of fresh snapshots nothing is asked.
   */
  ghost predicate Quiet(rows: Rows, e: Event, s: Signal) {
    match e
    case AssessObligation(_, _, now, _) =>
      Reaches(e, s) ==> forall id | IsExact(rows, id, s, AssessmentOf(e).value.snapshot) :: Keeps(rows, s, id, now)
    case AssessMissingStep(_, now, _) =>
      Reaches(e, s) ==> forall id | IsExact(rows, id, s, AssessmentOf(e).value.snapshot) :: Keeps(rows, s, id, now)
    case Suppress(id, _, _) => !Of(rows, id, s)
    case Acknowledge(id, now) => Of(rows, id, s) ==> Keeps(rows, s, id, now)
  }

  ghost predicate Keeps(rows: Rows, s: Signal, id: nat, now: Instant) {
    IsLatest(rows, s, Some(id)) && StaysLatest(rows, s, id, now)
  }

  /**
   Whatever the clock and its id are, a fresh row inherits the suppression, and so does
   whichever row is then latest.
   */
  lemma FreshKeepsMuted(rows: Rows, a: Assessment, now: Instant, newId: nat, prior: Option<nat>, rows': Rows, s: Signal,
        n: nat, until: Instant)
      returns (n': nat)
    requires Muted(rows, s, n, until) && now < until
    requires FreshStep(rows, a, now, newId, prior, rows') && Validated(a).value.0 == s
    ensures Muted(rows', s, n', until)
  {
    hide Validated, Score, ClassFor, Codes;
    LatestIsUnique(rows, s, prior, Some(n));
    assert rows' == rows[newId := rows'[newId]];
    assert rows'[newId].status == Suppressed && rows'[newId].suppressedUntil == Some(until);
    n' := if Later(rows'[newId], rows'[n]) then newId else n;
    assert Of(rows', n', s);
    forall k: nat | Of(rows', k, s)
      ensures Later(rows'[n'], rows'[k])
    {
      assert k == newId || Later(rows[n], rows[k]);
    }
  }

  lemma FreshElsewhereKeepsMuted(rows: Rows, a: Assessment, now: Instant, newId: nat, prior: Option<nat>, rows': Rows,
        s: Signal, n: nat, until: Instant)
    requires Muted(rows, s, n, until)
    requires FreshStep(rows, a, now, newId, prior, rows') && Validated(a).value.0 != s
    ensures Muted(rows', s, n, until)
  {
    hide Validated, Score, ClassFor, Codes;
    FreshElsewhere(rows, a, now, newId, prior, rows', s);
    FreshIsKeyed(rows, a, now, newId, prior, rows');
    assert Of(rows, n, s);
  }

  /** A row that is updated in place keeps the signal muted, if it stays its latest row or is none of its rows. */
  lemma UpdateKeepsMuted(rows: Rows, id: nat, r: Row, now: Instant, s: Signal, n: nat, until: Instant)
    requires Muted(rows, s, n, until)
    requires id in rows && r.id == id && r.signal == rows[id].signal && r.updatedAt == now
    requires Of(rows, id, s) ==>
      id == n && StaysLatest(rows, s, n, now) && r.status != Active && r.suppressedUntil == rows[id].suppressedUntil
    ensures Muted(rows[id := r], s, n, until)
  {
    var rows' := rows[id := r];
    assert forall k: nat :: Of(rows', k, s) <==> Of(rows, k, s);
    assert Of(rows', n, s);
    forall k: nat | Of(rows', k, s)
      ensures Later(rows'[n], rows'[k])
    {
      assert Later(rows[n], rows[k]);
    }
  }

  lemma MutedRow(rows: Rows, s: Signal, n: nat, until: Instant, id: nat)
    requires Muted(rows, s, n, until) && id in rows
    ensures rows[id].id == id
    ensures Of(rows, id, s) && IsLatest(rows, s, Some(id)) ==> id == n
  {
    if Of(rows, id, s) && IsLatest(rows, s, Some(id)) {
      LatestIsUnique(rows, s, Some(id), Some(n));
    }
  }

  lemma NextKeepsMuted(rows: Rows, e: Event, rows': Rows, s: Signal, n: nat, until: Instant)
      returns (n': nat)
    requires Muted(rows, s, n, until) && e.now < until
    requires Next(rows, e, rows') && Quiet(rows, e, s)
    ensures Muted(rows', s, n', until)
  {
    hide Muted, IsLatest, StaysLatest, FreshRow, Validated, AssessmentOf;
    n' := n;
    if rows' == rows {
    } else if e.Suppress? {
      var reason, owner, reference :|
        rows' == rows[e.id := SuppressedRow(rows[e.id], e.until, reason, owner, reference, e.now)];
      MutedRow(rows, s, n, until, e.id);
      UpdateKeepsMuted(rows, e.id, rows'[e.id], e.now, s, n, until);
    } else if e.Acknowledge? {
      var owner, reference :| rows' == rows[e.id := AcknowledgedRow(rows[e.id], owner, reference, e.now)];
      MutedRow(rows, s, n, until, e.id);
      UpdateKeepsMuted(rows, e.id, rows'[e.id], e.now, s, n, until);
    } else if prior :| FreshStep(rows, AssessmentOf(e).value, e.now, e.newId, prior, rows') {
      FreshIsValid(rows, e, rows', prior);
      if Validated(AssessmentOf(e).value).value.0 == s {
        n' := FreshKeepsMuted(rows, AssessmentOf(e).value, e.now, e.newId, prior, rows', s, n, until);
      } else {
        FreshElsewhereKeepsMuted(rows, AssessmentOf(e).value, e.now, e.newId, prior, rows', s, n, until);
      }
    } else {
      var id :| RefreshStep(rows, AssessmentOf(e).value, e.now, id, rows');
      RefreshKeepsMuted(rows, AssessmentOf(e).value, e.now, id, rows', s, n, until);
    }
  }

  lemma RefreshKeepsMuted(rows: Rows, a: Assessment, now: Instant, id: nat, rows': Rows, s: Signal, n: nat,
        until: Instant)
    requires Muted(rows, s, n, until) && now < until && RefreshStep(rows, a, now, id, rows')
    requires Of(rows, id, s) ==> Keeps(rows, s, id, now)
    ensures Muted(rows', s, n, until)
  {
    hide Validated, Muted, IsLatest, StaysLatest;
    MutedRow(rows, s, n, until, id);
    var r := Refreshed(rows[id], a.ownerPrivate, a.nonActionable, now);
    if r == rows[id] {
      assert rows' == rows;
    } else {
      RefreshedStaysSuppressed(rows, s, n, until, id, a, now);
      UpdateKeepsMuted(rows, id, r, now, s, n, until);
    }
  }

  lemma RefreshedStaysSuppressed(rows: Rows, s: Signal, n: nat, until: Instant, id: nat, a: Assessment, now: Instant)
    requires Muted(rows, s, n, until) && now < until && id in rows
    ensures var r := Refreshed(rows[id], a.ownerPrivate, a.nonActionable, now);
      r.suppressedUntil == rows[id].suppressedUntil && (id == n ==> r.status != Active)
  {
  }

  // ----- whole lives -----

  /**
   Event `k` suppresses a row of the signal that is then its latest one, no other row being
   active; until `j` every event comes before the suppression ends and is quiet.
   */
  ghost predicate SuppressedThrough(l: Life, s: Signal, k: nat, j: nat) {
    && k < j < |l.states| == |l.events| + 1
    && var e := l.events[k];
    && e.Suppress? && Of(l.states[k], e.id, s)
    && SuppressStep(l.states[k], e.id, e.until, e.now, l.states[k + 1])
    && StaysLatest(l.states[k], s, e.id, e.now)
    && (forall id: nat | Of(l.states[k], id, s) && id != e.id :: l.states[k][id].status != Active)
    && (forall m | k < m < j :: l.events[m].now < e.until)
    && (forall m {:trigger Quiet(l.states[m], l.events[m], s)} | k < m < j :: Quiet(l.states[m], l.events[m], s))
  }

  lemma SuppressionMutes(rows: Rows, e: Event, rows': Rows, s: Signal)
    requires WellKeyed(rows) && e.Suppress? && Of(rows, e.id, s) && SuppressStep(rows, e.id, e.until, e.now, rows')
    requires StaysLatest(rows, s, e.id, e.now)
    requires forall id: nat | Of(rows, id, s) && id != e.id :: rows[id].status != Active
    ensures Muted(rows', s, e.id, e.until)
  {
    var reason, owner, reference :|
      rows' == rows[e.id := SuppressedRow(rows[e.id], e.until, reason, owner, reference, e.now)];
    assert forall k: nat :: Of(rows', k, s) <==> Of(rows, k, s);
  }

  lemma {:induction false} StaysMuted(l: Life, s: Signal, k: nat, j: nat) returns (n: nat)
    requires IsLife(l) && SuppressedThrough(l, s, k, j)
    ensures Muted(l.states[j], s, n, l.events[k].until)
    decreases j
  {
    hide Next, Quiet, SuppressStep, StaysLatest, Muted, WellKeyed, SoundRow;
    if j == k + 1 {
      AlwaysSound(l, k);
      n := l.events[k].id;
      SuppressionMutes(l.states[k], l.events[k], l.states[j], s);
    } else {
      n := StaysMuted(l, s, k, j - 1);
      var m := j - 1;
      assert Next(l.states[m], l.events[m], l.states[m + 1]) && Quiet(l.states[m], l.events[m], s);
      n := NextKeepsMuted(l.states[m], l.events[m], l.states[m + 1], s, n, l.events[k].until);
    }
  }

  /**
   From an owner suppression until its end no row of the signal is active and none yields a
   suggestion, whatever snapshots, refreshes and acknowledgements happen.
   */
  lemma SuppressionHolds(l: Life, s: Signal, k: nat, j: nat, id: nat, w: Surroundings, now: Instant)
    requires IsLife(l) && SuppressedThrough(l, s, k, j) && Of(l.states[j], id, s)
    ensures l.states[j][id].status != Active
    ensures Suggestion(l.states[j][id], w, now).None?
  {
    hide IsLife, SuppressedThrough;
    var n := StaysMuted(l, s, k, j);
  }

  /** Where the clock does not go back, a row that is the latest stays it when it is stamped. */
  lemma LatestStaysLatest(rows: Rows, s: Signal, id: nat, clock: Instant, now: Instant)
    requires WellKeyed(rows) && IsLatest(rows, s, Some(id)) && rows[id].updatedAt <= clock <= now
    ensures StaysLatest(rows, s, id, now)
  {
    assert forall k: nat | Of(rows, k, s) :: Later(rows[id], rows[k]);
  }

  /** Orderly events other than a suppression of the signal are quiet. */
  lemma OrderlyIsQuiet(rows: Rows, e: Event, s: Signal, latest: Option<nat>, clock: Instant)
    requires History(rows, s, latest, clock) && clock <= e.now && Orderly(rows, e, s)
    requires e.Suppress? ==> !Of(rows, e.id, s)
    ensures Quiet(rows, e, s)
  {
    hide AssessmentOf, Validated, StaysLatest;
    if latest.Some? {
      LatestStaysLatest(rows, s, latest.value, clock, e.now);
    }
    forall id: nat | IsLatest(rows, s, Some(id))
      ensures Keeps(rows, s, id, e.now)
    {
      LatestIsUnique(rows, s, latest, Some(id));
    }
  }

  /** In an orderly life every suppression of the signal counts, until the next one or its end. */
  lemma OrderlyLifeIsSuppressedThrough(l: Life, s: Signal, k: nat, j: nat)
    requires OrderlyLife(l, s) && k < j < |l.states|
    requires l.events[k].Suppress? && Of(l.states[k], l.events[k].id, s)
    requires SuppressStep(l.states[k], l.events[k].id, l.events[k].until, l.events[k].now, l.states[k + 1])
    requires forall m | k < m < j :: l.events[m].now < l.events[k].until
    requires forall m | k < m < j :: l.events[m].Suppress? ==> !Of(l.states[m], l.events[m].id, s)
    ensures IsLife(l) && SuppressedThrough(l, s, k, j)
  {
    hide Next, Orderly, Quiet, SuppressStep, History, StaysLatest;
    SuppressesLatest(l, s, k);
    forall m | k < m < j
      ensures Quiet(l.states[m], l.events[m], s)
    {
      var latest := AlwaysHistory(l, s, m);
      LifeStep(l, s, m);
      OrderlyIsQuiet(l.states[m], l.events[m], s, latest, ClockAt(l, m));
    }
  }

  lemma SuppressesLatest(l: Life, s: Signal, k: nat)
    requires OrderlyLife(l, s) && k < |l.events| && l.events[k].Suppress? && Of(l.states[k], l.events[k].id, s)
    ensures StaysLatest(l.states[k], s, l.events[k].id, l.events[k].now)
    ensures forall id: nat | Of(l.states[k], id, s) && id != l.events[k].id :: l.states[k][id].status != Active
  {
    hide Next, OrderlyAssessment, StaysLatest;
    var rows, n := l.states[k], l.events[k].id;
    var latest := AlwaysHistory(l, s, k);
    LifeStep(l, s, k);
    LatestIsUnique(rows, s, latest, Some(n));
    LatestStaysLatest(rows, s, n, ClockAt(l, k), l.events[k].now);
  }

  // ----- how a suppression ends early -----

  ghost predicate SomeActive(rows: Rows, s: Signal) {
    exists k: nat :: Of(rows, k, s) && rows[k].status == Active
  }

  /**
   Where no row is active, a fresh snapshot makes one so exactly when the row it finds for the
   latest carries no suppression on, whatever the clock and the ids are.
   */
  lemma FreshUnmutesIff(rows: Rows, a: Assessment, now: Instant, newId: nat, prior: nat, rows': Rows, s: Signal)
    requires !SomeActive(rows, s) && Of(rows, prior, s)
    requires FreshStep(rows, a, now, newId, Some(prior), rows') && Validated(a).value.0 == s
    ensures newId in rows' && (SomeActive(rows', s) <==> rows'[newId].status == Active)
    ensures SomeActive(rows', s) <==> !SuppressedAt(rows[prior], now)
  {
    hide Validated, Score, ClassFor, Codes, IsLatest;
    assert Of(rows', newId, s);
    assert forall k: nat | Of(rows', k, s) && k != newId :: Of(rows, k, s) && rows'[k] == rows[k];
  }

  /** A return to an older snapshot unmutes the signal exactly when that row is neither acknowledged nor suppressed. */
  lemma ReturnUnmutesIff(rows: Rows, s: Signal, n: nat, until: Instant, a: Assessment, now: Instant, id: nat,
        rows': Rows)
    requires Muted(rows, s, n, until) && Of(rows, id, s) && RefreshStep(rows, a, now, id, rows')
    ensures SomeActive(rows', s) <==> rows[id].status != Acknowledged && !SuppressedAt(rows[id], now)
  {
    hide Validated, IsLatest;
    assert Of(rows', id, s);
    assert forall k: nat | Of(rows', k, s) && k != id :: Of(rows, k, s) && rows'[k] == rows[k];
  }

  /**
   An owner who acknowledges an older row makes it the latest one, unless the clock went back,
   and the next snapshot inherits that row's suppression instead. So before the suppression of
   the signal ends, the next snapshot is active exactly when the older row has none any more.
   */
  lemma AcknowledgementUnmutesIff(rows: Rows, s: Signal, n: nat, until: Instant, id: nat, now: Instant, mid: Rows,
        a: Assessment, later: Instant, newId: nat, prior: Option<nat>, rows': Rows)
    requires Muted(rows, s, n, until) && Of(rows, id, s) && id != n
    requires rows[id].status != Acknowledged && AcknowledgeStep(rows, id, now, mid)
    requires FreshStep(mid, a, later, newId, prior, rows') && Validated(a).value.0 == s && later < until
    ensures prior == Some(if StaysLatest(rows, s, id, now) then id else n)
    ensures newId in rows' && (SomeActive(rows', s) <==> rows'[newId].status == Active)
    ensures SomeActive(rows', s) <==> StaysLatest(rows, s, id, now) && !SuppressedAt(rows[id], later)
  {
    hide Validated, Score, ClassFor, Codes, Muted, StaysLatest;
    MutedAcknowledged(rows, s, n, until, id, now, mid, prior);
    FreshUnmutesIff(mid, a, later, newId, prior.value, rows', s);
  }

  lemma MutedAcknowledged(rows: Rows, s: Signal, n: nat, until: Instant, id: nat, now: Instant, mid: Rows,
        prior: Option<nat>)
    requires Muted(rows, s, n, until) && Of(rows, id, s) && id != n
    requires rows[id].status != Acknowledged && AcknowledgeStep(rows, id, now, mid) && IsLatest(mid, s, prior)
    ensures prior == Some(if StaysLatest(rows, s, id, now) then id else n)
    ensures Of(mid, id, s) && mid[id].suppressedUntil == rows[id].suppressedUntil
    ensures Of(mid, n, s) && mid[n].suppressedUntil == Some(until)
    ensures !SomeActive(mid, s)
  {
    var owner, reference :| mid == rows[id := AcknowledgedRow(rows[id], owner, reference, now)];
    assert Of(mid, id, s) && Of(mid, n, s);
    assert forall k: nat | Of(mid, k, s) && k != id :: Of(rows, k, s) && mid[k] == rows[k] && Later(rows[n], rows[k]);
    assert StaysLatest(rows, s, id, now) ==> IsLatest(mid, s, Some(id));
    assert !StaysLatest(rows, s, id, now) ==> IsLatest(mid, s, Some(n));
    LatestIsUnique(mid, s, prior, Some(if StaysLatest(rows, s, id, now) then id else n));
  }

  // ----- candidates inside one cooldown window -----

  /** Event `i` creates a row of the signal. */
  ghost predicate CreatesRow(l: Life, s: Signal, i: nat) {
    && i < |l.events| && i + 1 < |l.states|
    && exists prior :: CreatesAfter(l, s, i, prior)
  }

  ghost predicate CreatesAfter(l: Life, s: Signal, i: nat, prior: Option<nat>)
    requires i < |l.events| && i + 1 < |l.states|
  {
    && Fresh(l.states[i], l.events[i], l.states[i + 1], prior)
    && Validated(AssessmentOf(l.events[i]).value).value.0 == s
  }

  /** The row that event `i` creates. */
  ghost function Created(l: Life, s: Signal, i: nat): Row
    requires CreatesRow(l, s, i)
  {
    var prior :| CreatesAfter(l, s, i, prior);
    l.states[i + 1][l.events[i].newId]
  }

  /** Event `i` leaves the rows of the signal as they are. */
  ghost predicate Passes(l: Life, s: Signal, i: nat) {
    i < |l.events| && i + 1 < |l.states| && SameRows(l.states[i], l.states[i + 1], s)
  }

  ghost predicate SameRows(rows: Rows, rows': Rows, s: Signal) {
    && (forall id :: Of(rows', id, s) <==> Of(rows, id, s))
    && forall id | Of(rows, id, s) :: rows'[id] == rows[id]
  }

  /** Events `i` and `j` create neighbouring rows of the signal: whatever comes between is about other signals. */
  ghost predicate Neighbours(l: Life, s: Signal, i: nat, j: nat) {
    && i < j && CreatesRow(l, s, i) && CreatesRow(l, s, j)
    && forall m | i < m < j :: Passes(l, s, m)
  }

  /** A candidate carries a cooldown and no suppression. */
  lemma CandidateCools(rows: Rows, a: Assessment, now: Instant, newId: nat, prior: Option<nat>, rows': Rows)
    requires FreshStep(rows, a, now, newId, prior, rows') && rows'[newId].effectiveClass == OwnerSuggestion
    ensures rows'[newId].cooldownUntil == Some(now + COOLDOWN) && rows'[newId].suppressedUntil.None?
    ensures rows'[newId].score >= SUGGESTION_THRESHOLD
  {
    hide Validated, Score, Codes;
  }

  lemma CooledIsNoCandidate(rows: Rows, a: Assessment, now: Instant, newId: nat, prior: Option<nat>, rows': Rows)
    requires FreshStep(rows, a, now, newId, prior, rows')
    requires prior.Some? && prior.value in rows && rows[prior.value].effectiveClass == OwnerSuggestion
    requires rows[prior.value].cooldownUntil.Some? && now < rows[prior.value].cooldownUntil.value
    requires rows'[newId].score <= rows[prior.value].score + COOLDOWN_MARGIN
    ensures rows'[newId].effectiveClass != OwnerSuggestion
  {
    hide Validated, Score, ClassFor, Codes;
  }

  lemma {:induction false} PassedUntil(l: Life, s: Signal, i: nat, j: nat)
    requires i <= j < |l.states| && forall m | i <= m < j :: Passes(l, s, m)
    ensures SameRows(l.states[i], l.states[j], s)
    decreases j
  {
    if i < j {
      PassedUntil(l, s, i, j - 1);
      assert Passes(l, s, j - 1);
    }
  }

  /** What is known of a row when it is created in an orderly life: it is the latest, behind the latest before it. */
  lemma CreatedInOrder(l: Life, s: Signal, i: nat, prior: Option<nat>) returns (latest: Option<nat>)
    requires OrderlyLife(l, s) && i < |l.events| && CreatesAfter(l, s, i, prior)
    ensures History(l.states[i], s, latest, ClockAt(l, i)) && prior == latest
    ensures IsLatest(l.states[i + 1], s, Some(l.events[i].newId))
  {
    hide FreshStep, Orderly, Validated, AssessmentOf, Next;
    var e := l.events[i];
    latest := AlwaysHistory(l, s, i);
    LifeStep(l, s, i);
    FreshIsValid(l.states[i], e, l.states[i + 1], prior);
    NewIdSortsAbove(l.states[i], e, s);
    FreshHere(l.states[i], AssessmentOf(e).value, e.now, e.newId, prior, l.states[i + 1], s, latest, ClockAt(l, i));
  }

  /** The row created by `j` comes behind the one created by `i`, whatever happened to other signals in between. */
  lemma NeighbourIsPrior(l: Life, s: Signal, i: nat, j: nat, p: Option<nat>, q: Option<nat>)
    requires OrderlyLife(l, s) && i < j < |l.events| && CreatesAfter(l, s, i, p) && CreatesAfter(l, s, j, q)
    requires forall m | i < m < j :: Passes(l, s, m)
    ensures q == Some(l.events[i].newId)
    ensures q.value in l.states[i + 1] && q.value in l.states[j] && l.states[j][q.value] == l.states[i + 1][q.value]
  {
    hide Next, Orderly, FreshStep, AssessmentOf, Validated, Passes;
    var before := CreatedInOrder(l, s, i, p);
    var latest := CreatedInOrder(l, s, j, q);
    PassedUntil(l, s, i + 1, j);
    assert Of(l.states[i + 1], l.events[i].newId, s);
    assert IsLatest(l.states[j], s, Some(l.events[i].newId));
  }

  /**
   Two neighbours, the second inside the cooldown of the first, are not both candidates. The
   margin by which a score may rise out of a cooldown is out of reach: a candidate has at least
   the suggestion threshold, and no score exceeds the ceiling.
   */
  lemma NoTwoInARow(l: Life, s: Signal, i: nat, j: nat)
    requires OrderlyLife(l, s) && Neighbours(l, s, i, j)
    requires l.events[j].now < l.events[i].now + COOLDOWN
    ensures Created(l, s, i).effectiveClass == OwnerSuggestion ==> Created(l, s, j).effectiveClass != OwnerSuggestion
  {
    hide OrderlyLife, Passes, FreshStep, Validated, AssessmentOf;
    var e, f := l.events[i], l.events[j];
    var p :| CreatesAfter(l, s, i, p);
    var q :| CreatesAfter(l, s, j, q);
    NeighbourIsPrior(l, s, i, j, p, q);
    if Created(l, s, i).effectiveClass == OwnerSuggestion {
      CandidateCools(l.states[i], AssessmentOf(e).value, e.now, e.newId, p, l.states[i + 1]);
      ScoreCeiling(l.states[j], f, f.newId, q, l.states[j + 1]);
      CooledIsNoCandidate(l.states[j], AssessmentOf(f).value, f.now, f.newId, q, l.states[j + 1]);
    }
  }

  /** The listed events create neighbouring rows of the signal inside one cooldown. */
  ghost predicate Burst(l: Life, s: Signal, at: seq<nat>) {
    && (forall k | 0 <= k < |at| :: CreatesRow(l, s, at[k]))
    && (forall k | 0 <= k < |at| :: l.events[at[k]].now < l.events[at[0]].now + COOLDOWN)
    && (forall k | 0 <= k < |at| - 1 :: Neighbours(l, s, at[k], at[k + 1]))
  }

  ghost function Candidates(l: Life, s: Signal, at: seq<nat>): nat
    requires forall k | 0 <= k < |at| :: CreatesRow(l, s, at[k])
  {
    if at == [] then 0
    else
      var n := |at| - 1;
      Candidates(l, s, at[..n]) + (if Created(l, s, at[n]).effectiveClass == OwnerSuggestion then 1 else 0)
  }

  /** So at most half of the rows of a burst, rounded up, are created as candidates. */
  lemma {:induction false} AtMostHalfAreCandidates(l: Life, s: Signal, at: seq<nat>)
    requires OrderlyLife(l, s) && Burst(l, s, at)
    ensures Candidates(l, s, at) <= (|at| + 1) / 2
  {
    hide OrderlyLife, CreatesRow, Created;
    var n := |at|;
    if n >= 2 {
      assert at[..n - 1][..n - 2] == at[..n - 2];
      AtMostHalfAreCandidates(l, s, at[..n - 2]);
      BurstIsCooled(l, s, at, n - 2);
      NoTwoInARow(l, s, at[n - 2], at[n - 1]);
    }
  }

  lemma BurstIsCooled(l: Life, s: Signal, at: seq<nat>, k: nat)
    requires OrderlyLife(l, s) && Burst(l, s, at) && k + 1 < |at|
    ensures Neighbours(l, s, at[k], at[k + 1]) && l.events[at[k + 1]].now < l.events[at[k]].now + COOLDOWN
  {
    hide Next, Orderly, Created;
    StartIsFirst(l, s, at, k);
  }

  lemma {:induction false} StartIsFirst(l: Life, s: Signal, at: seq<nat>, k: nat)
    requires Burst(l, s, at) && k < |at|
    ensures at[0] <= at[k]
  {
    hide CreatesRow, Created, Passes;
    if k > 0 {
      StartIsFirst(l, s, at, k - 1);
      assert Neighbours(l, s, at[k - 1], at[k - 1 + 1]);
    }
  }
}
