/**
 The shadow-event step of migration 0030: every audit row of a normalized shadow message
 becomes an inbound event, unless one with its tenant and external id is there already,
 in which case the payload hashes must agree.
 */
module ShadowBackfill {
  import opened Common

  const SHADOW := "meta_whatsapp_shadow"

  /** The payload members that are hashed. */
  datatype Operational = Operational(
    sender: Option<string>,
    messageType: Option<string>,
    interactiveType: Option<string>,
    buttonReplyId: Option<string>,
    contextId: Option<string>)

  /** An audit row; `externalId` is None when the payload member is there but is not a text. */
  datatype Audit = Audit(
    id: string,
    tenantId: string,
    eventType: string,
    origin: string,
    namesExternalId: bool,
    externalId: Option<string>,
    correlationId: Option<string>,
    createdAt: int,
    operational: Operational)

  datatype Inbound = Inbound(
    id: string,
    tenantId: string,
    source: string,
    externalId: string,
    eventType: string,
    payloadHash: string,
    receivedAt: int,
    status: string,
    correlationId: string)

  predicate Selected(a: Audit) {
    a.eventType == "meta_event_shadow_normalized" && a.origin == "ingress" && a.namesExternalId
  }

  predicate WellFormed(a: Audit) {
    a.externalId.Some? && 0 < |a.externalId.value| <= 180
  }

  /** The event stands for the audit row: same tenant, same external id. */
  predicate StandsFor(e: Inbound, a: Audit) {
    e.source == SHADOW && e.tenantId == a.tenantId && Some(e.externalId) == a.externalId
  }

  predicate SameIdentity(a: Audit, b: Audit) {
    a.tenantId == b.tenantId && a.externalId == b.externalId
  }

  ghost predicate UniqueInbound(inbound: map<string, Inbound>) {
    forall j, k | j in inbound && k in inbound && j != k ::
      || inbound[j].tenantId != inbound[k].tenantId
      || inbound[j].source != inbound[k].source
      || inbound[j].externalId != inbound[k].externalId
  }

  function EventFor(a: Audit, id: string, hash: string, fallback: string): Inbound
    requires a.externalId.Some?
  {
    Inbound(id, a.tenantId, SHADOW, a.externalId.value, "shadow_normalized", hash, a.createdAt, "SHADOW_NORMALIZED",
            if a.correlationId.Some? then a.correlationId.value else fallback)
  }

  /** All selected rows are well formed, and rows and events of one identity agree on the hash. */
  ghost predicate Agreeable(audits: map<string, Audit>, inbound: map<string, Inbound>, hashOf: Operational -> string) {
    && (forall a | a in audits && Selected(audits[a]) :: WellFormed(audits[a]))
    && (forall a, b | a in audits && b in audits && Selected(audits[a]) && Selected(audits[b]) ::
          SameIdentity(audits[a], audits[b]) ==>
            hashOf(audits[a].operational) == hashOf(audits[b].operational))
    && (forall a, e | a in audits && e in inbound && Selected(audits[a]) && StandsFor(inbound[e], audits[a]) ::
          inbound[e].payloadHash == hashOf(audits[a].operational))
  }

  /** Row `n` of the query needs an event: there was none, and no row before it has the same identity. */
  ghost predicate Inserts(audits: map<string, Audit>, before: map<string, Inbound>, rows: seq<string>, n: nat) {
    && n < |rows| && rows[n] in audits
    && (forall k | k in before :: !StandsFor(before[k], audits[rows[n]]))
    && forall i | 0 <= i < n && rows[i] in audits :: !SameIdentity(audits[rows[i]], audits[rows[n]])
  }

  /** The ids minted for the first `n` rows are not taken, and no two of them are alike. */
  ghost predicate IdsFit(audits: map<string, Audit>, before: map<string, Inbound>, rows: seq<string>, n: nat,
        stableId: string -> string)
    requires n <= |rows|
  {
    && (forall i | 0 <= i < n && Inserts(audits, before, rows, i) :: stableId(rows[i]) !in before)
    && forall i, j | 0 <= i < j < n && Inserts(audits, before, rows, i) && Inserts(audits, before, rows, j) ::
         stableId(rows[i]) != stableId(rows[j])
  }

  /** The table after the first `n` rows: what was there, and one event for each row that needed one. */
  ghost predicate Inserted(audits: map<string, Audit>, before: map<string, Inbound>, inbound: map<string, Inbound>,
        rows: seq<string>, n: nat, hashOf: Operational -> string, stableId: string -> string,
        fallbackOf: string -> string)
    requires n <= |rows|
  {
    && (forall k | k in inbound :: k in before || MintedBefore(audits, before, rows, n, k, stableId))
    && (forall k | k in before :: k in inbound && inbound[k] == before[k])
    && forall i | 0 <= i < n && Inserts(audits, before, rows, i) ::
         && audits[rows[i]].externalId.Some? && stableId(rows[i]) in inbound
         && inbound[stableId(rows[i])]
            == EventFor(audits[rows[i]], stableId(rows[i]), hashOf(audits[rows[i]].operational), fallbackOf(rows[i]))
  }

  ghost predicate MintedBefore(audits: map<string, Audit>, before: map<string, Inbound>, rows: seq<string>, n: nat,
        k: string, stableId: string -> string)
    requires n <= |rows|
  {
    exists i :: 0 <= i < n && Inserts(audits, before, rows, i) && stableId(rows[i]) == k
  }

  /** Exactly one event stands for the audit row, and it carries the row's hash. */
  ghost predicate Represented(inbound: map<string, Inbound>, a: Audit, hashOf: Operational -> string) {
    exists e | e in inbound ::
      && StandsFor(inbound[e], a)
      && inbound[e].payloadHash == hashOf(a.operational)
      && forall f | f in inbound && StandsFor(inbound[f], a) :: f == e
  }

  /** Event `k` was made for one of the rows seen so far. */
  ghost predicate MadeFor(audits: map<string, Audit>, seen: seq<string>, k: string, e: Inbound,
        hashOf: Operational -> string, stableId: string -> string)
  {
    exists a | a in seen && a in audits && Selected(audits[a]) ::
      k == stableId(a) && StandsFor(e, audits[a]) && e.payloadHash == hashOf(audits[a].operational)
  }

  /** The loop after the rows in `seen`. */
  ghost predicate Progress(audits: map<string, Audit>, before: map<string, Inbound>, inbound: map<string, Inbound>,
        seen: seq<string>, hashOf: Operational -> string, stableId: string -> string)
  {
    && UniqueInbound(inbound)
    && (forall k | k in before :: k in inbound && inbound[k] == before[k])
    && (forall k | k in inbound && k !in before :: MadeFor(audits, seen, k, inbound[k], hashOf, stableId))
    && (forall a | a in seen ::
          && a in audits && Selected(audits[a])
          && WellFormed(audits[a]) && Represented(inbound, audits[a], hashOf))
  }

  lemma ProgressMatched(audits: map<string, Audit>, before: map<string, Inbound>, inbound: map<string, Inbound>,
        seen: seq<string>, a: string, k: string, hashOf: Operational -> string, stableId: string -> string)
    requires Progress(audits, before, inbound, seen, hashOf, stableId)
    requires a in audits && Selected(audits[a]) && WellFormed(audits[a])
    requires k in inbound && StandsFor(inbound[k], audits[a]) && inbound[k].payloadHash == hashOf(audits[a].operational)
    ensures Progress(audits, before, inbound, seen + [a], hashOf, stableId)
  {
    assert Represented(inbound, audits[a], hashOf);
    forall j | j in inbound && j !in before
      ensures MadeFor(audits, seen + [a], j, inbound[j], hashOf, stableId)
    {
      MadeForMore(audits, seen, a, j, inbound[j], hashOf, stableId);
    }
  }

  lemma MadeForMore(audits: map<string, Audit>, seen: seq<string>, a: string, k: string, e: Inbound,
        hashOf: Operational -> string, stableId: string -> string)
    requires MadeFor(audits, seen, k, e, hashOf, stableId)
    ensures MadeFor(audits, seen + [a], k, e, hashOf, stableId)
  {
    var b :| b in seen && b in audits && Selected(audits[b])
      && k == stableId(b) && StandsFor(e, audits[b]) && e.payloadHash == hashOf(audits[b].operational);
    assert b in seen + [a];
  }

  lemma ProgressInserted(audits: map<string, Audit>, before: map<string, Inbound>, inbound: map<string, Inbound>,
        seen: seq<string>, a: string, e: Inbound, hashOf: Operational -> string, stableId: string -> string)
    requires Progress(audits, before, inbound, seen, hashOf, stableId)
    requires a in audits && Selected(audits[a]) && WellFormed(audits[a]) && stableId(a) !in inbound
    requires forall k | k in inbound :: !StandsFor(inbound[k], audits[a])
    requires StandsFor(e, audits[a]) && e.payloadHash == hashOf(audits[a].operational)
    ensures Progress(audits, before, inbound[stableId(a) := e], seen + [a], hashOf, stableId)
  {
    var id := stableId(a);
    var after := inbound[id := e];
    InsertKeepsUnique(inbound, id, e, audits[a]);
    assert MadeFor(audits, seen + [a], id, e, hashOf, stableId) by {
      assert a in seen + [a];
    }
    forall j | j in inbound && j !in before
      ensures MadeFor(audits, seen + [a], j, inbound[j], hashOf, stableId)
    {
      MadeForMore(audits, seen, a, j, inbound[j], hashOf, stableId);
    }
    forall b | b in seen
      ensures Represented(after, audits[b], hashOf)
    {
      InsertKeepsRepresented(inbound, id, e, audits[b], hashOf);
    }
    assert StandsFor(after[id], audits[a]);
    assert Represented(after, audits[a], hashOf);
  }

  lemma InsertKeepsUnique(inbound: map<string, Inbound>, id: string, e: Inbound, a: Audit)
    requires UniqueInbound(inbound) && id !in inbound && StandsFor(e, a)
    requires forall k | k in inbound :: !StandsFor(inbound[k], a)
    ensures UniqueInbound(inbound[id := e])
  {
  }

  /** An event that disagrees with a row shows that the input disagreed. */
  lemma MismatchDisagrees(audits: map<string, Audit>, before: map<string, Inbound>, inbound: map<string, Inbound>,
        seen: seq<string>, a: string, k: string, hashOf: Operational -> string, stableId: string -> string)
    requires Progress(audits, before, inbound, seen, hashOf, stableId)
    requires a in audits && Selected(audits[a])
    requires k in inbound && StandsFor(inbound[k], audits[a]) && inbound[k].payloadHash != hashOf(audits[a].operational)
    ensures !Agreeable(audits, before, hashOf)
  {
    if k !in before {
      assert MadeFor(audits, seen, k, inbound[k], hashOf, stableId);
    }
  }

  /** No event stands for the next row exactly when the tables of the start call for one. */
  lemma NextInserts(audits: map<string, Audit>, before: map<string, Inbound>, inbound: map<string, Inbound>,
        rows: seq<string>, n: nat, hashOf: Operational -> string, stableId: string -> string)
    requires n < |rows| && rows[n] in audits
    requires Progress(audits, before, inbound, rows[..n], hashOf, stableId)
    ensures Inserts(audits, before, rows, n) <==> forall k | k in inbound :: !StandsFor(inbound[k], audits[rows[n]])
  {
    if Inserts(audits, before, rows, n) {
      forall k | k in inbound
        ensures !StandsFor(inbound[k], audits[rows[n]])
      {
        if k !in before {
          assert MadeFor(audits, rows[..n], k, inbound[k], hashOf, stableId);
          MadeForEarlier(audits, rows, n, k, inbound[k], hashOf, stableId);
        }
      }
    } else {
      if i :| 0 <= i < n && rows[i] in audits && SameIdentity(audits[rows[i]], audits[rows[n]]) {
        assert rows[i] in rows[..n] && Represented(inbound, audits[rows[i]], hashOf);
      }
    }
  }

  lemma MadeForEarlier(audits: map<string, Audit>, rows: seq<string>, n: nat, k: string, e: Inbound,
        hashOf: Operational -> string, stableId: string -> string)
    requires n < |rows| && rows[n] in audits && MadeFor(audits, rows[..n], k, e, hashOf, stableId)
    ensures StandsFor(e, audits[rows[n]]) ==>
      exists i :: 0 <= i < n && rows[i] in audits && SameIdentity(audits[rows[i]], audits[rows[n]])
  {
    var a :| a in rows[..n] && a in audits && Selected(audits[a])
      && k == stableId(a) && StandsFor(e, audits[a]) && e.payloadHash == hashOf(audits[a].operational);
    var i :| 0 <= i < n && rows[i] == a;
  }

  lemma NothingInserted(audits: map<string, Audit>, before: map<string, Inbound>, rows: seq<string>,
        hashOf: Operational -> string, stableId: string -> string, fallbackOf: string -> string)
    ensures IdsFit(audits, before, rows, 0, stableId)
    ensures Inserted(audits, before, before, rows, 0, hashOf, stableId, fallbackOf)
  {
  }

  lemma MintedMore(audits: map<string, Audit>, before: map<string, Inbound>, rows: seq<string>, n: nat,
        stableId: string -> string)
    requires n < |rows|
    ensures forall k :: MintedBefore(audits, before, rows, n + 1, k, stableId) <==>
      MintedBefore(audits, before, rows, n, k, stableId)
      || (Inserts(audits, before, rows, n) && stableId(rows[n]) == k)
  {
    hide Inserts;
    forall k
      ensures MintedBefore(audits, before, rows, n + 1, k, stableId) <==>
        MintedBefore(audits, before, rows, n, k, stableId)
        || (Inserts(audits, before, rows, n) && stableId(rows[n]) == k)
    {
      if MintedBefore(audits, before, rows, n, k, stableId) {
        var i :| 0 <= i < n && Inserts(audits, before, rows, i) && stableId(rows[i]) == k;
        assert 0 <= i < n + 1 && Inserts(audits, before, rows, i);
      }
      if Inserts(audits, before, rows, n) && stableId(rows[n]) == k {
        assert 0 <= n < n + 1;
      }
    }
  }

  lemma MatchedInserts(audits: map<string, Audit>, before: map<string, Inbound>, inbound: map<string, Inbound>,
        rows: seq<string>, n: nat, hashOf: Operational -> string, stableId: string -> string,
        fallbackOf: string -> string)
    requires n < |rows| && !Inserts(audits, before, rows, n) && IdsFit(audits, before, rows, n, stableId)
    requires Inserted(audits, before, inbound, rows, n, hashOf, stableId, fallbackOf)
    ensures IdsFit(audits, before, rows, n + 1, stableId)
    ensures Inserted(audits, before, inbound, rows, n + 1, hashOf, stableId, fallbackOf)
  {
    hide Inserts, MintedBefore, EventFor;
    MintedMore(audits, before, rows, n, stableId);
  }

  /** The id of a row that needs an event is taken exactly when the ids do not fit. */
  lemma TakenIffUnfit(audits: map<string, Audit>, before: map<string, Inbound>, inbound: map<string, Inbound>,
        rows: seq<string>, n: nat, hashOf: Operational -> string, stableId: string -> string,
        fallbackOf: string -> string)
    requires n < |rows| && Inserts(audits, before, rows, n) && IdsFit(audits, before, rows, n, stableId)
    requires Inserted(audits, before, inbound, rows, n, hashOf, stableId, fallbackOf)
    ensures stableId(rows[n]) in inbound <==> !IdsFit(audits, before, rows, n + 1, stableId)
  {
    hide Inserts, EventFor, IdsFit;
    FitMore(audits, before, rows, n, stableId);
  }

  lemma FitMore(audits: map<string, Audit>, before: map<string, Inbound>, rows: seq<string>, n: nat,
        stableId: string -> string)
    requires n < |rows| && Inserts(audits, before, rows, n) && IdsFit(audits, before, rows, n, stableId)
    ensures IdsFit(audits, before, rows, n + 1, stableId) <==>
      stableId(rows[n]) !in before && !MintedBefore(audits, before, rows, n, stableId(rows[n]), stableId)
  {
    hide Inserts;
  }

  lemma UnfitStays(audits: map<string, Audit>, before: map<string, Inbound>, rows: seq<string>, n: nat,
        stableId: string -> string)
    requires n <= |rows| && !IdsFit(audits, before, rows, n, stableId)
    ensures !IdsFit(audits, before, rows, |rows|, stableId)
  {
    hide Inserts;
  }

  lemma InsertedMore(audits: map<string, Audit>, before: map<string, Inbound>, inbound: map<string, Inbound>,
        rows: seq<string>, n: nat, hashOf: Operational -> string, stableId: string -> string,
        fallbackOf: string -> string)
    requires n < |rows| && rows[n] in audits && audits[rows[n]].externalId.Some?
    requires Inserts(audits, before, rows, n)
    requires Inserted(audits, before, inbound, rows, n, hashOf, stableId, fallbackOf) && stableId(rows[n]) !in inbound
    ensures var id := stableId(rows[n]);
      var e := EventFor(audits[rows[n]], id, hashOf(audits[rows[n]].operational), fallbackOf(rows[n]));
      Inserted(audits, before, inbound[id := e], rows, n + 1, hashOf, stableId, fallbackOf)
  {
    hide MintedBefore, EventFor, Inserts;
    MintedMore(audits, before, rows, n, stableId);
    var id := stableId(rows[n]);
    var after :=
      inbound[id := EventFor(audits[rows[n]], id, hashOf(audits[rows[n]].operational), fallbackOf(rows[n]))];
    forall i | 0 <= i < n && Inserts(audits, before, rows, i)
      ensures stableId(rows[i]) in after && after[stableId(rows[i])] == inbound[stableId(rows[i])]
    {
      assert stableId(rows[i]) in inbound;
    }
    forall k | k in before
      ensures k in after && after[k] == before[k]
    {
      assert k in inbound && k != id;
    }
    forall k | k in after
      ensures k in before || MintedBefore(audits, before, rows, n + 1, k, stableId)
    {
      assert MintedBefore(audits, before, rows, n + 1, k, stableId) <==>
        MintedBefore(audits, before, rows, n, k, stableId) || id == k;
      assert k == id || k in inbound;
    }
  }

  /** Minted ids tell audit rows apart and are not taken. */
  ghost predicate FreshIds(audits: map<string, Audit>, before: map<string, Inbound>, stableId: string -> string) {
    && (forall a, b | a in audits && b in audits && stableId(a) == stableId(b) :: a == b)
    && forall a | a in audits :: stableId(a) !in before
  }

  /** Such ids fit in every order of the rows, so that nothing but agreement decides. */
  lemma FreshIdsFit(audits: map<string, Audit>, before: map<string, Inbound>, rows: seq<string>,
        stableId: string -> string)
    requires NoDuplicates(rows) && FreshIds(audits, before, stableId)
    ensures IdsFit(audits, before, rows, |rows|, stableId)
  {
  }

  class ShadowDatabase {
    const audits: map<string, Audit>
    var inbound: map<string, Inbound>

    constructor (audits: map<string, Audit>, inbound: map<string, Inbound>)
      ensures this.audits == audits && this.inbound == inbound
    {
      this.audits, this.inbound := audits, inbound;
    }

    /**
     _backfill_historical_meta_shadow_events, for the rows of its query in their order. It
     finishes exactly when all selected rows agree and the ids it has to mint fit; then the
     table holds what it held and one event for each row that needed one. With ids that are
     new and tell rows apart, agreement alone decides.
     */
    method Backfill(rows: seq<string>, hashOf: Operational -> string, stableId: string -> string,
          fallbackOf: string -> string)
        returns (ok: bool)
      requires UniqueInbound(inbound)
      requires NoDuplicates(rows) && forall a :: a in rows <==> a in audits && Selected(audits[a])
      modifies this
      ensures ok <==> Agreeable(audits, old(inbound), hashOf) && IdsFit(audits, old(inbound), rows, |rows|, stableId)
      ensures FreshIds(audits, old(inbound), stableId) ==> (ok <==> Agreeable(audits, old(inbound), hashOf))
      ensures !ok ==> inbound == old(inbound)
      ensures ok ==> UniqueInbound(inbound)
      ensures ok ==> Inserted(audits, old(inbound), inbound, rows, |rows|, hashOf, stableId, fallbackOf)
      ensures ok ==> forall a | a in audits && Selected(audits[a]) :: Represented(inbound, audits[a], hashOf)
    {
      hide Agreeable, FreshIds, IdsFit, Inserted, Inserts, Progress, Represented, UniqueInbound;
      var before := inbound;
      if FreshIds(audits, before, stableId) {
        FreshIdsFit(audits, before, rows, stableId);
      }
      NothingYet(audits, before, hashOf, stableId);
      NothingInserted(audits, before, rows, hashOf, stableId, fallbackOf);
      for n := 0 to |rows|
        invariant Progress(audits, before, inbound, rows[..n], hashOf, stableId)
        invariant IdsFit(audits, before, rows, n, stableId)
        invariant Inserted(audits, before, inbound, rows, n, hashOf, stableId, fallbackOf)
      {
        assert rows[n] in rows;
        assert rows[..n + 1] == rows[..n] + [rows[n]];
        var row := audits[rows[n]];
        if !WellFormed(row) {
          inbound := before;
          MalformedDisagrees(audits, before, rows[n], hashOf);
          return false;
        }
        NextInserts(audits, before, inbound, rows, n, hashOf, stableId);
        var hash := hashOf(row.operational);
        if k :| k in inbound && StandsFor(inbound[k], row) {
          if inbound[k].payloadHash != hash {
            MismatchDisagrees(audits, before, inbound, rows[..n], rows[n], k, hashOf, stableId);
            inbound := before;
            return false;
          }
          ProgressMatched(audits, before, inbound, rows[..n], rows[n], k, hashOf, stableId);
          MatchedInserts(audits, before, inbound, rows, n, hashOf, stableId, fallbackOf);
        } else {
          var id := stableId(rows[n]);
          TakenIffUnfit(audits, before, inbound, rows, n, hashOf, stableId, fallbackOf);
          if id in inbound {
            UnfitStays(audits, before, rows, n + 1, stableId);
            inbound := before;
            return false;
          }
          var event := EventFor(row, id, hash, fallbackOf(rows[n]));
          ProgressInserted(audits, before, inbound, rows[..n], rows[n], event, hashOf, stableId);
          InsertedMore(audits, before, inbound, rows, n, hashOf, stableId, fallbackOf);
          inbound := inbound[id := event];
        }
      }
      ok := true;
      assert rows[..|rows|] == rows;
      ProgressAgrees(audits, before, inbound, rows, hashOf, stableId);
    }
  }

  lemma NothingYet(audits: map<string, Audit>, inbound: map<string, Inbound>, hashOf: Operational -> string,
        stableId: string -> string)
    requires UniqueInbound(inbound)
    ensures Progress(audits, inbound, inbound, [], hashOf, stableId)
  {
  }

  lemma MalformedDisagrees(audits: map<string, Audit>, inbound: map<string, Inbound>, a: string,
        hashOf: Operational -> string)
    requires a in audits && Selected(audits[a]) && !WellFormed(audits[a])
    ensures !Agreeable(audits, inbound, hashOf)
  {
  }

  lemma InsertKeepsRepresented(inbound: map<string, Inbound>, id: string, e: Inbound, a: Audit,
        hashOf: Operational -> string)
    requires Represented(inbound, a, hashOf) && id !in inbound
    requires UniqueInbound(inbound[id := e])
    ensures Represented(inbound[id := e], a, hashOf)
  {
    var k :| k in inbound && StandsFor(inbound[k], a) && inbound[k].payloadHash == hashOf(a.operational);
    assert inbound[id := e][k] == inbound[k];
  }

  /** Rows that all found their one event agree with each other and with what was there. */
  lemma ProgressAgrees(audits: map<string, Audit>, before: map<string, Inbound>, after: map<string, Inbound>,
        seen: seq<string>, hashOf: Operational -> string, stableId: string -> string)
    requires Progress(audits, before, after, seen, hashOf, stableId)
    requires forall a | a in audits && Selected(audits[a]) :: a in seen
    ensures Agreeable(audits, before, hashOf) && UniqueInbound(after)
    ensures forall a | a in audits && Selected(audits[a]) :: Represented(after, audits[a], hashOf)
    ensures forall k | k in before :: k in after && after[k] == before[k]
    ensures forall k | k in after && k !in before ::
      exists a | a in audits && Selected(audits[a]) :: k == stableId(a) && StandsFor(after[k], audits[a])
  {
    forall a, b | a in audits && b in audits && Selected(audits[a]) && Selected(audits[b])
      && SameIdentity(audits[a], audits[b])
      ensures hashOf(audits[a].operational) == hashOf(audits[b].operational)
    {
      var e :| e in after && StandsFor(after[e], audits[a]) && after[e].payloadHash == hashOf(audits[a].operational);
      assert StandsFor(after[e], audits[b]);
    }
    forall k | k in after && k !in before
      ensures exists a | a in audits && Selected(audits[a]) :: k == stableId(a) && StandsFor(after[k], audits[a])
    {
      assert MadeFor(audits, seen, k, after[k], hashOf, stableId);
    }
  }

  // ----- in columns -----

  /** The audit row of a normalized shadow message. */
  ghost predicate IsShadowMessage(audits: map<string, Audit>, a: string) {
    && a in audits && audits[a].namesExternalId
    && audits[a].eventType == "meta_event_shadow_normalized" && audits[a].origin == "ingress"
  }

  ghost predicate IsEventOf(e: Inbound, a: Audit) {
    e.source == "meta_whatsapp_shadow" && e.tenantId == a.tenantId && a.externalId == Some(e.externalId)
  }

  /** The event that a message gets: its own tenant, id, time and correlation, and the hash of its payload. */
  ghost predicate MadeFrom(e: Inbound, id: string, a: Audit, hash: string, fallback: string) {
    && e.id == id && IsEventOf(e, a)
    && e.eventType == "shadow_normalized" && e.status == "SHADOW_NORMALIZED"
    && e.payloadHash == hash && e.receivedAt == a.createdAt
    && (a.correlationId.Some? ==> e.correlationId == a.correlationId.value)
    && (a.correlationId.None? ==> e.correlationId == fallback)
  }

  /**
   Nothing disagrees exactly when every message has an external id of 1 to 180 characters, and two
   messages, or a message and an event, with the same tenant and external id have the same hash.
   */
  lemma AgreeableIff(audits: map<string, Audit>, inbound: map<string, Inbound>, hashOf: Operational -> string)
    ensures Agreeable(audits, inbound, hashOf) <==>
      && (forall a | IsShadowMessage(audits, a) ::
            audits[a].externalId.Some? && 1 <= |audits[a].externalId.value| < 181)
      && (forall a, b | IsShadowMessage(audits, a) && IsShadowMessage(audits, b) ::
            audits[a].tenantId == audits[b].tenantId && audits[a].externalId == audits[b].externalId ==>
              hashOf(audits[a].operational) == hashOf(audits[b].operational))
      && forall a, e | IsShadowMessage(audits, a) && e in inbound && IsEventOf(inbound[e], audits[a]) ::
           inbound[e].payloadHash == hashOf(audits[a].operational)
  {
    assert forall a :: IsShadowMessage(audits, a) <==> a in audits && Selected(audits[a]);
    assert forall a, e | a in audits && e in inbound ::
      IsEventOf(inbound[e], audits[a]) <==> StandsFor(inbound[e], audits[a]);
    if Agreeable(audits, inbound, hashOf) {
      forall a, b | IsShadowMessage(audits, a) && IsShadowMessage(audits, b)
        && audits[a].tenantId == audits[b].tenantId && audits[a].externalId == audits[b].externalId
        ensures hashOf(audits[a].operational) == hashOf(audits[b].operational)
      {
        assert SameIdentity(audits[a], audits[b]);
      }
    }
  }

  /**
   What a finished backfill leaves: no event is lost or changed, every message has one event with its
   hash, and each new event was made from a message that had none.
   */
  lemma BackfillColumns(audits: map<string, Audit>, before: map<string, Inbound>, inbound: map<string, Inbound>,
        rows: seq<string>, hashOf: Operational -> string, stableId: string -> string, fallbackOf: string -> string)
    requires forall a :: a in rows <==> a in audits && Selected(audits[a])
    requires Inserted(audits, before, inbound, rows, |rows|, hashOf, stableId, fallbackOf)
    requires forall a | a in audits && Selected(audits[a]) :: Represented(inbound, audits[a], hashOf)
    ensures forall k | k in before :: k in inbound && inbound[k] == before[k]
    ensures forall a | IsShadowMessage(audits, a) :: exists k :: HasEvent(inbound, k, audits[a], hashOf)
    ensures forall k | k in inbound && k !in before :: exists a :: IsNew(audits, before, inbound, k, a, hashOf,
      stableId, fallbackOf)
  {
    hide Inserts;
    forall a | IsShadowMessage(audits, a)
      ensures exists k :: HasEvent(inbound, k, audits[a], hashOf)
    {
      assert Represented(inbound, audits[a], hashOf);
      var k :| && k in inbound && StandsFor(inbound[k], audits[a])
               && inbound[k].payloadHash == hashOf(audits[a].operational)
               && forall f | f in inbound && StandsFor(inbound[f], audits[a]) :: f == k;
      assert HasEvent(inbound, k, audits[a], hashOf);
    }
    forall k | k in inbound && k !in before
      ensures exists a :: IsNew(audits, before, inbound, k, a, hashOf, stableId, fallbackOf)
    {
      var i :| 0 <= i < |rows| && Inserts(audits, before, rows, i) && stableId(rows[i]) == k;
      assert rows[i] in rows;
      HadNone(audits, before, rows, i);
      assert IsNew(audits, before, inbound, k, rows[i], hashOf, stableId, fallbackOf);
    }
  }

  ghost predicate HasEvent(inbound: map<string, Inbound>, k: string, a: Audit, hashOf: Operational -> string) {
    && k in inbound && IsEventOf(inbound[k], a) && inbound[k].payloadHash == hashOf(a.operational)
    && forall j | j in inbound && IsEventOf(inbound[j], a) :: j == k
  }

  ghost predicate IsNew(audits: map<string, Audit>, before: map<string, Inbound>, inbound: map<string, Inbound>,
        k: string, a: string, hashOf: Operational -> string, stableId: string -> string, fallbackOf: string -> string)
  {
    && k in inbound && IsShadowMessage(audits, a) && k == stableId(a)
    && MadeFrom(inbound[k], k, audits[a], hashOf(audits[a].operational), fallbackOf(a))
    && forall j | j in before :: !IsEventOf(before[j], audits[a])
  }

  lemma HadNone(audits: map<string, Audit>, before: map<string, Inbound>, rows: seq<string>, i: nat)
    requires Inserts(audits, before, rows, i)
    ensures forall j | j in before :: !IsEventOf(before[j], audits[rows[i]])
  {
    assert forall j | j in before :: !StandsFor(before[j], audits[rows[i]]);
  }
}
