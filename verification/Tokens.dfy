/** Token issue, validation and revocation (internal/infra/auth/token_manager.go, token_store.go).
    Signatures and their parsing are abstracted to whether the signature is valid; the claims used are
    `exp` and `jti` of sections 4.1.4 and 4.1.7 of RFC 7519. */
module Tokens {
  import opened Domain
  import opened TtlCache

  datatype Claims = Claims(userId: string, roles: seq<string>, jti: string, expiresAt: Option<Time>)

  type Store = Items<string, ()>

  datatype RevokeError = NoExpiration

  /** NumericDate keeps whole seconds. */
  function Truncate(t: Time): Time { t - t % SECOND }

  function GenerateToken(userId: string, roles: seq<string>, expiration: int, now: Time, uuid: string): Claims {
    Claims(userId, roles, uuid, Some(Truncate(now + expiration)))
  }

  /** Validation reads the clock for `exp` and again for the revocation store. */
  predicate Accepts(store: Store, claims: Claims, signatureValid: bool, expRead: Time, storeRead: Time) {
    && signatureValid
    && (claims.expiresAt.Some? ==> expRead < claims.expiresAt.value)
    && Lookup(store, claims.jti, storeRead).None?
  }

  /** The store after a revocation that read the clock at `at` for the remaining validity and at
      `setAt` for the deadline of the entry. */
  function AfterRevoke(store: Store, claims: Claims, at: Time, setAt: Time): Store {
    if claims.expiresAt.None? || claims.expiresAt.value - at <= 0 then store
    else store[claims.jti := NewItem((), claims.expiresAt.value - at, setAt, DEFAULT_TTL)]
  }

  /** An audit record of a revocation. */
  datatype RevokeRecord = RevokeRecord(userId: string, jti: string)

  class TokenManager {
    const store: Cache<string, ()>
    var audit: seq<RevokeRecord>

    constructor ()
      ensures fresh(store) && store.items == map[] && store.defaultTtl == DEFAULT_TTL && audit == []
    {
      store := new Cache(DEFAULT_TTL);
      audit := [];
    }

    method ValidateToken(claims: Claims, signatureValid: bool, expRead: Time, storeRead: Time) returns (ok: bool)
      ensures ok == Accepts(store.items, claims, signatureValid, expRead, storeRead)
      ensures ok <==>
        && signatureValid
        && (claims.expiresAt.None? || expRead < claims.expiresAt.value)
        && (claims.jti in store.items ==> !store.items[claims.jti].permanent && storeRead > store.items[claims.jti].expiresAt)
    {
      if !signatureValid {
        return false;
      }
      if claims.expiresAt.Some? && !(expRead < claims.expiresAt.value) {
        return false;
      }
      var revoked := store.Get(claims.jti, storeRead);
      return revoked.None?;
    }

    method Revoke(claims: Claims, at: Time, setAt: Time) returns (r: Result<(), RevokeError>)
      requires store.defaultTtl == DEFAULT_TTL
      modifies this, store
      ensures r.Ok? <==> claims.expiresAt.Some?
      ensures store.items == AfterRevoke(old(store.items), claims, at, setAt)
      ensures audit == if r.Ok? && claims.expiresAt.value > at then old(audit) + [RevokeRecord(claims.userId, claims.jti)] else old(audit)
    {
      if claims.expiresAt.None? {
        return Err(NoExpiration);
      }
      var ttl := claims.expiresAt.value - at;
      if ttl <= 0 {
        return Ok(());
      }
      store.Set(claims.jti, (), ttl, setAt);
      audit := audit + [RevokeRecord(claims.userId, claims.jti)];
      return Ok(());
    }
  }

  // ---------------------------------------------------------------- no gap

  datatype Event = RevokeEvent(claims: Claims, at: Time, setAt: Time) | SweepEvent(sweptAt: Time)

  function EffectTime(e: Event): Time { if e.RevokeEvent? then e.setAt else e.sweptAt }

  function Apply(store: Store, e: Event): Store {
    match e
    case RevokeEvent(claims, at, setAt) => AfterRevoke(store, claims, at, setAt)
    case SweepEvent(sweptAt) => Swept(store, sweptAt)
  }

  function RunEvents(store: Store, events: seq<Event>): Store
    decreases |events|
  {
    if events == [] then store else RunEvents(Apply(store, events[0]), events[1..])
  }

  /** The clock does not go back. */
  predicate InOrder(from: Time, events: seq<Event>, to: Time)
    decreases |events|
  {
    if events == [] then from <= to
    else
      && from <= EffectTime(events[0])
      && (events[0].RevokeEvent? ==> events[0].at <= events[0].setAt)
      && InOrder(EffectTime(events[0]), events[1..], to)
  }

  /** The deadline of the entry under `jti` after the events, if it was `d` before them: that of the last
      revocation that writes under that id.  Revocation reads the claims without checking the signature,
      so these need not be the claims of one token. */
  function LastDeadline(d: Time, jti: string, events: seq<Event>): Time
    decreases |events|
  {
    if events == [] then d else LastDeadline(DeadlineAfter(d, jti, events[0]), jti, events[1..])
  }

  predicate Writes(e: Event, jti: string) {
    e.RevokeEvent? && e.claims.jti == jti && e.claims.expiresAt.Some? && e.claims.expiresAt.value > e.at
  }

  function DeadlineAfter(d: Time, jti: string, e: Event): Time {
    if Writes(e, jti) then e.setAt + (e.claims.expiresAt.value - e.at) else d
  }

  /** The entry under `jti` has deadline `d`, or it has been swept after that. */
  predicate Tracks(store: Store, jti: string, d: Time, now: Time) {
    if jti in store then !store[jti].permanent && store[jti].expiresAt == d else now > d
  }

  /** The ttl is positive, so it is neither the "default" nor the "forever" value. */
  lemma RevokeTracks(store: Store, claims: Claims, at: Time, setAt: Time)
    requires claims.expiresAt.Some? && at < claims.expiresAt.value
    ensures Tracks(AfterRevoke(store, claims, at, setAt), claims.jti, setAt + (claims.expiresAt.value - at), setAt)
  {
  }

  lemma EventTracks(store: Store, jti: string, d: Time, now: Time, e: Event)
    requires Tracks(store, jti, d, now) && now <= EffectTime(e)
    ensures Tracks(Apply(store, e), jti, DeadlineAfter(d, jti, e), EffectTime(e))
  {
  }

  /** Through any run of revocations, of this or any other id, and sweeps. */
  lemma {:induction false} RunTracks(store: Store, jti: string, d: Time, now: Time, events: seq<Event>, to: Time)
    requires Tracks(store, jti, d, now) && InOrder(now, events, to)
    ensures Tracks(RunEvents(store, events), jti, LastDeadline(d, jti, events), to) && now <= to
    decreases |events|
  {
    if events != [] {
      EventTracks(store, jti, d, now, events[0]);
      RunTracks(Apply(store, events[0]), jti, DeadlineAfter(d, jti, events[0]), EffectTime(events[0]), events[1..], to);
    }
  }

  lemma {:induction false} OrderEnds(from: Time, events: seq<Event>, to: Time)
    requires InOrder(from, events, to)
    ensures from <= to
    decreases |events|
  {
    if events != [] { OrderEnds(EffectTime(events[0]), events[1..], to); }
  }

  /** The store after a revocation and whatever came after it. */
  function AfterAll(store: Store, claims: Claims, at: Time, setAt: Time, events: seq<Event>): Store {
    RunEvents(AfterRevoke(store, claims, at, setAt), events)
  }

  /** With the two clock readings validation takes, a token that has been revoked passes if and only if
      the first falls before `exp` and the second after the deadline last written under its id. */
  lemma TwoReadingsGap(
    store: Store, claims: Claims, at: Time, setAt: Time, events: seq<Event>, to: Time, expRead: Time, storeRead: Time)
    requires claims.expiresAt.Some? && at <= setAt && InOrder(setAt, events, to) && to <= expRead && to <= storeRead
    ensures Accepts(AfterAll(store, claims, at, setAt, events), claims, true, expRead, storeRead) <==>
      && expRead < claims.expiresAt.value
      && storeRead > LastDeadline(setAt + (claims.expiresAt.value - at), claims.jti, events)
  {
    OrderEnds(setAt, events, to);
    if at < claims.expiresAt.value {
      var d := setAt + (claims.expiresAt.value - at);
      RevokeTracks(store, claims, at, setAt);
      RunTracks(AfterRevoke(store, claims, at, setAt), claims.jti, d, setAt, events, to);
    }
  }

  ghost predicate RejectedFrom(store: Store, claims: Claims, from: Time) {
    forall now, signatureValid :: now >= from ==> !Accepts(store, claims, signatureValid, now, now)
  }

  /** Once Revoke has returned, and whatever revocations and sweeps have followed by `to`, the token is
      rejected at every time from `to` on if and only if it has expired by then or the deadline last
      written under its id reaches the last instant before its expiry. */
  lemma RevokedStaysRevoked(store: Store, claims: Claims, at: Time, setAt: Time, events: seq<Event>, to: Time)
    requires claims.expiresAt.Some? && at <= setAt && InOrder(setAt, events, to)
    ensures RejectedFrom(AfterAll(store, claims, at, setAt, events), claims, to) <==>
      || to >= claims.expiresAt.value
      || LastDeadline(setAt + (claims.expiresAt.value - at), claims.jti, events) >= claims.expiresAt.value - 1
  {
    var after := AfterAll(store, claims, at, setAt, events);
    var last := LastDeadline(setAt + (claims.expiresAt.value - at), claims.jti, events);
    forall now | now >= to ensures Accepts(after, claims, true, now, now) <==> last < now < claims.expiresAt.value {
      TwoReadingsGap(store, claims, at, setAt, events, to, now, now);
    }
    var first := if to > last then to else last + 1;
    assert first >= to && (Accepts(after, claims, true, first, first) <==> last < first < claims.expiresAt.value);
  }

  /** No later revocation under this id names an earlier expiry. */
  ghost predicate NoneEarlier(claims: Claims, events: seq<Event>)
    requires claims.expiresAt.Some?
  {
    forall e :: e in events && Writes(e, claims.jti) ==> e.claims.expiresAt.value >= claims.expiresAt.value
  }

  lemma {:induction false} NoneEarlierReaches(d: Time, claims: Claims, from: Time, events: seq<Event>, to: Time)
    requires claims.expiresAt.Some? && d >= claims.expiresAt.value && InOrder(from, events, to) && NoneEarlier(claims, events)
    ensures LastDeadline(d, claims.jti, events) >= claims.expiresAt.value
    decreases |events|
  {
    if events != [] {
      assert events[0] in events;
      NoneEarlierReaches(DeadlineAfter(d, claims.jti, events[0]), claims, EffectTime(events[0]), events[1..], to);
    }
  }

  /** In particular a token made by GenerateToken stays rejected for ever, through revocations of other
      ids, repeated revocations of its own and sweeps, as long as nobody revokes its id with an earlier
      expiry. */
  lemma IssuedTokenStaysRevoked(
    store: Store, userId: string, roles: seq<string>, expiration: int, issued: Time, uuid: string,
    at: Time, setAt: Time, events: seq<Event>, to: Time)
    requires at <= setAt && InOrder(setAt, events, to)
    requires NoneEarlier(GenerateToken(userId, roles, expiration, issued, uuid), events)
    ensures
      var claims := GenerateToken(userId, roles, expiration, issued, uuid);
      RejectedFrom(AfterAll(store, claims, at, setAt, events), claims, to)
  {
    var claims := GenerateToken(userId, roles, expiration, issued, uuid);
    NoneEarlierReaches(setAt + (claims.expiresAt.value - at), claims, setAt, events, to);
    RevokedStaysRevoked(store, claims, at, setAt, events, to);
  }

  /** Nobody has revoked this id. */
  ghost predicate Unrevoked(jti: string, events: seq<Event>) {
    forall e :: e in events ==> !Writes(e, jti)
  }

  lemma {:induction false} UnrevokedIsAbsent(store: Store, jti: string, events: seq<Event>)
    requires jti !in store && Unrevoked(jti, events)
    ensures jti !in RunEvents(store, events)
    decreases |events|
  {
    if events != [] {
      assert events[0] in events;
      UnrevokedIsAbsent(Apply(store, events[0]), jti, events[1..]);
    }
  }

  /** From an empty store on, whatever else is revoked: a token made by GenerateToken whose id nobody revokes is
      accepted, if its signature is valid, up to a second before its time is over at the latest, and
      not from then on; and never if the signature is not valid. */
  lemma UnrevokedIsAccepted(
    userId: string, roles: seq<string>, expiration: int, issued: Time, uuid: string, events: seq<Event>, now: Time)
    requires Unrevoked(uuid, events)
    ensures
      var claims := GenerateToken(userId, roles, expiration, issued, uuid);
      var store := RunEvents(map[], events);
      && claims.userId == userId && claims.roles == roles && claims.jti == uuid
      && (Accepts(store, claims, true, now, now) <==> now < claims.expiresAt.value)
      && !Accepts(store, claims, false, now, now)
      && issued + expiration - SECOND < claims.expiresAt.value <= issued + expiration
      && claims.expiresAt.value % SECOND == 0
  {
    UnrevokedIsAbsent(map[], uuid, events);
    TruncateBounds(issued + expiration);
  }

  lemma TruncateBounds(t: Time)
    ensures t - SECOND < Truncate(t) <= t && Truncate(t) % SECOND == 0
  {
    assert t == SECOND * (t / SECOND) + t % SECOND;
  }

  /** The condition can fail: a token valid for an hour is revoked, then its id is revoked again with an
      expiry after ten seconds.  At eleven seconds the first token is rejected without the second
      revocation and accepted with it. */
  lemma EarlierExpiryReplaces(jti: string, userId: string)
    ensures
      var claims := Claims(userId, [], jti, Some(3600 * SECOND));
      var again := RevokeEvent(Claims(userId, [], jti, Some(10 * SECOND)), SECOND, SECOND);
      && InOrder(0, [again], 11 * SECOND)
      && !Accepts(AfterAll(map[], claims, 0, 0, []), claims, true, 11 * SECOND, 11 * SECOND)
      && Accepts(AfterAll(map[], claims, 0, 0, [again]), claims, true, 11 * SECOND, 11 * SECOND)
  {
    var claims := Claims(userId, [], jti, Some(3600 * SECOND));
    var again := RevokeEvent(Claims(userId, [], jti, Some(10 * SECOND)), SECOND, SECOND);
    assert [again][1..] == [];
    TwoReadingsGap(map[], claims, 0, 0, [], 11 * SECOND, 11 * SECOND, 11 * SECOND);
    TwoReadingsGap(map[], claims, 0, 0, [again], 11 * SECOND, 11 * SECOND, 11 * SECOND);
  }

  /** The gap between two readings is real too: whenever a token is revoked before its expiry there are two
      readings, both after the revocation and in order, between which it gets through. */
  lemma GapIsReal(
    store: Store, userId: string, roles: seq<string>, expiration: int, issued: Time, uuid: string, at: Time, setAt: Time)
    returns (expRead: Time, storeRead: Time)
    requires at <= setAt < Truncate(issued + expiration)
    ensures
      var claims := GenerateToken(userId, roles, expiration, issued, uuid);
      && setAt <= expRead <= storeRead
      && Accepts(AfterRevoke(store, claims, at, setAt), claims, true, expRead, storeRead)
      && storeRead - expRead <= 2 + (setAt - at)
  {
    var claims := GenerateToken(userId, roles, expiration, issued, uuid);
    expRead := claims.expiresAt.value - 1;
    storeRead := setAt + (claims.expiresAt.value - at) + 1;
    TwoReadingsGap(store, claims, at, setAt, [], setAt, expRead, storeRead);
  }

  /** One more revocation under the id of a revoked token keeps that token rejected if and only if it
      writes nothing, comes at or after the expiry, or writes a deadline that reaches the last instant
      before it. */
  lemma OtherTokenSameIdIff(store: Store, claims: Claims, at: Time, setAt: Time, other: Claims, at': Time, setAt': Time)
    requires claims.expiresAt.Some? && at <= setAt <= setAt' && at' <= setAt' && other.jti == claims.jti
    ensures RejectedFrom(AfterRevoke(AfterRevoke(store, claims, at, setAt), other, at', setAt'), claims, setAt') <==>
      || other.expiresAt.None? || other.expiresAt.value <= at'
      || setAt' >= claims.expiresAt.value
      || setAt' + (other.expiresAt.value - at') >= claims.expiresAt.value - 1
  {
    var again := RevokeEvent(other, at', setAt');
    var first := AfterRevoke(store, claims, at, setAt);
    assert [again][1..] == [];
    assert RunEvents(first, [again]) == RunEvents(Apply(first, again), []) == Apply(first, again);
    RevokedStaysRevoked(store, claims, at, setAt, [again], setAt');
  }
}
