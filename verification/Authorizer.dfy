/** The authorizer and its policy cache (internal/infra/auth/authorizer.go,
    internal/constants/auth.go, pkg/authorization/tier.go). */
module Authorizer {
  import opened Domain
  import opened KeyTable
  import opened TtlCache

  const POLICY_TTL: int := 5 * MINUTE

  const SCOPES: set<string> :=
    {"keys:read", "keys:create", "keys:list", "keys:rotate", "keys:revoke", "keys:update"}

  /** The scopes whose requests name a key. */
  const KEY_SCOPES: set<string> := {"keys:read", "keys:rotate", "keys:revoke", "keys:update"}

  datatype Tier = Free | Pro | Enterprise | UnknownTier

  datatype User = User(id: string, permissions: seq<string>)

  datatype Requester = Requester(clientIdentity: string, tier: Tier)

  /** `peerName` is the common name of the client certificate, if there is one. */
  datatype Request = Request(
    user: Option<User>, requester: Option<Requester>, peerName: Option<string>, operation: string, keyId: KeyId)

  datatype Config = Config(roles: map<string, seq<string>>, enforceIdentityMatch: bool)

  /** `error` is the reason of a denial. */
  datatype AuditEvent = AuditEvent(userId: string, operation: string, keyId: KeyId, success: bool, error: Option<string>)

  /** An answer of the repository to GetKey. */
  type Lookups = KeyId -> Result<Key, TableError>

  // ---------------------------------------------------------------- decisions

  function PolicyKey(userId: string, operation: string, keyId: KeyId): string {
    userId + ":" + operation + ":" + keyId
  }

  predicate RoleGrants(cfg: Config, role: string, operation: string) {
    role == "*" || (role in cfg.roles && ("*" in cfg.roles[role] || operation in cfg.roles[role]))
  }

  predicate RoleIsAdmin(cfg: Config, role: string) {
    role == "*" || (role in cfg.roles && "*" in cfg.roles[role])
  }

  ghost predicate Granted(cfg: Config, user: User, operation: string) {
    exists i :: 0 <= i < |user.permissions| && RoleGrants(cfg, user.permissions[i], operation)
  }

  ghost predicate IsAdmin(cfg: Config, user: User) {
    exists i :: 0 <= i < |user.permissions| && RoleIsAdmin(cfg, user.permissions[i])
  }

  function ProfileRank(p: StorageProfile): nat {
    match p case Unspecified => 0 case Standard => 1 case Hardened => 2
  }

  predicate TierAllows(tier: Tier, profile: StorageProfile) {
    ProfileRank(profile) <= ProfileRank(if tier == Pro || tier == Enterprise then Hardened else Standard)
  }

  /** The key names the user and the requester's tier reaches the key's profile. */
  predicate KeyAllows(lookup: Lookups, user: User, keyId: KeyId, requester: Option<Requester>) {
    && lookup(keyId).Ok?
    && user.id in lookup(keyId).value.row.metadata.authorizedContexts
    && requester.Some?
    && TierAllows(requester.value.tier, lookup(keyId).value.row.metadata.storageType)
  }

  /** checkAuthorization: the decision without the cache. */
  ghost predicate Uncached(cfg: Config, lookup: Lookups, user: User, req: Request) {
    || IsAdmin(cfg, user)
    || req.keyId == NIL_UUID
    || req.operation !in KEY_SCOPES
    || KeyAllows(lookup, user, req.keyId, req.requester)
  }

  function TierText(tier: Tier): string {
    match tier case Free => "free" case Pro => "pro" case Enterprise => "enterprise" case UnknownTier => "unknown"
  }

  function ProfileText(p: StorageProfile): string {
    match p
    case Unspecified => "STORAGE_PROFILE_UNSPECIFIED"
    case Standard => "STORAGE_PROFILE_STANDARD"
    case Hardened => "STORAGE_PROFILE_HARDENED"
  }

  function TierDenial(tier: Tier, p: StorageProfile): string {
    "tier '" + TierText(tier) + "' is not permitted to use the '" + ProfileText(p) + "' storage profile"
  }

  /** The first thing that is wrong with a request for a key, or "authorized". */
  function KeyReason(lookup: Lookups, user: User, keyId: KeyId, requester: Option<Requester>): string {
    match lookup(keyId)
    case Err(e) => if e == KeyNotFound then "key_not_found" else "internal_error_accessing_key"
    case Ok(key) =>
      if user.id !in key.row.metadata.authorizedContexts then "insufficient_key_permissions"
      else if requester.None? then "requester_context_is_required_for_tier_validation"
      else if !TierAllows(requester.value.tier, key.row.metadata.storageType)
      then TierDenial(requester.value.tier, key.row.metadata.storageType)
      else "authorized"
  }

  /** Each denial names its own cause, in this order. */
  lemma KeyReasonsIff(lookup: Lookups, user: User, keyId: KeyId, requester: Option<Requester>)
    ensures
      var r, reason := lookup(keyId), KeyReason(lookup, user, keyId, requester);
      && (reason == "key_not_found" <==> r == Err(KeyNotFound))
      && (reason == "internal_error_accessing_key" <==> r.Err? && r.error != KeyNotFound)
      && (reason == "insufficient_key_permissions" <==> r.Ok? && user.id !in r.value.row.metadata.authorizedContexts)
      && (reason == "requester_context_is_required_for_tier_validation" <==>
            r.Ok? && user.id in r.value.row.metadata.authorizedContexts && requester.None?)
      && (reason == "authorized" <==> KeyAllows(lookup, user, keyId, requester))
  {
    if lookup(keyId).Ok? && requester.Some? {
      assert TierDenial(requester.value.tier, lookup(keyId).value.row.metadata.storageType)[0] == 't';
    }
  }

  ghost function UncachedReason(cfg: Config, lookup: Lookups, user: User, req: Request): string {
    if IsAdmin(cfg, user) then "authorized_by_admin_role"
    else if req.keyId == NIL_UUID || req.operation !in KEY_SCOPES then "authorized"
    else KeyReason(lookup, user, req.keyId, req.requester)
  }

  /** The role itself is the wildcard, or the configuration lists the wildcard or the operation for it. */
  ghost predicate Lists(cfg: Config, role: string, operation: string) {
    role == "*" || (role in cfg.roles && exists i :: 0 <= i < |cfg.roles[role]| && cfg.roles[role][i] in {"*", operation})
  }

  /** Administrators are those who are granted everything; a grant is one role that lists the operation. */
  lemma GrantsIff(cfg: Config, user: User, operation: string)
    ensures Granted(cfg, user, operation) <==>
      exists i :: 0 <= i < |user.permissions| && Lists(cfg, user.permissions[i], operation)
    ensures IsAdmin(cfg, user) <==> exists i :: 0 <= i < |user.permissions| && Lists(cfg, user.permissions[i], "*")
    ensures IsAdmin(cfg, user) ==> Granted(cfg, user, operation)
  {
    forall role ensures RoleGrants(cfg, role, operation) <==> Lists(cfg, role, operation) {}
    forall role ensures RoleIsAdmin(cfg, role) <==> Lists(cfg, role, "*") {}
    if i :| 0 <= i < |user.permissions| && RoleIsAdmin(cfg, user.permissions[i]) {
      assert RoleGrants(cfg, user.permissions[i], operation);
    }
  }

  /** The tiers: only Pro and Enterprise reach hardened keys, everybody reaches the others. */
  lemma TiersReach(tier: Tier)
    ensures TierAllows(tier, Hardened) <==> tier in {Pro, Enterprise}
    ensures TierAllows(tier, Standard) && TierAllows(tier, Unspecified)
  {
  }

  /** An uncached request is allowed if and only if the user is an administrator, no key is named, the operation is
      not one on a key, or the key can be read, lists the user, and the requester is known and of a
      sufficient tier. */
  lemma UncachedIff(cfg: Config, lookup: Lookups, user: User, req: Request)
    ensures Uncached(cfg, lookup, user, req) <==>
      || (exists i :: 0 <= i < |user.permissions| && Lists(cfg, user.permissions[i], "*"))
      || req.keyId == "00000000-0000-0000-0000-000000000000"
      || req.operation !in {"keys:read", "keys:rotate", "keys:revoke", "keys:update"}
      || (match lookup(req.keyId)
          case Err(_) => false
          case Ok(key) =>
            && user.id in key.row.metadata.authorizedContexts && req.requester.Some?
            && (key.row.metadata.storageType == Hardened ==> req.requester.value.tier in {Pro, Enterprise}))
  {
    GrantsIff(cfg, user, req.operation);
  }

  /** A request is identified if and only if there is a user whom some role grants the operation, the requester,
      if it gives an identity, gives that of the user, and, where that is enforced, the certificate names the
      user. */
  lemma IdentifiedIff(cfg: Config, req: Request)
    ensures Identified(cfg, req) <==>
      match req.user
      case None => false
      case Some(user) =>
        && (exists i :: 0 <= i < |user.permissions| && Lists(cfg, user.permissions[i], req.operation))
        && (req.requester.Some? ==> req.requester.value.clientIdentity in {"", user.id})
        && (cfg.enforceIdentityMatch ==> req.peerName.Some? && req.peerName.value == user.id)
  {
    if req.user.Some? { GrantsIff(cfg, req.user.value, req.operation); }
  }

  /** The reason tells the decision. */
  lemma ReasonTellsDecision(cfg: Config, lookup: Lookups, user: User, req: Request)
    ensures Uncached(cfg, lookup, user, req) <==>
      UncachedReason(cfg, lookup, user, req) in {"authorized", "authorized_by_admin_role"}
  {
    if lookup(req.keyId).Ok? && req.requester.Some? {
      assert TierDenial(req.requester.value.tier, lookup(req.keyId).value.row.metadata.storageType)[0] == 't';
    }
  }

  /** What a request that is not identified is told. */
  ghost function IdentityReason(cfg: Config, req: Request): string {
    if req.user.None? then "missing_user_identity"
    else if !Granted(cfg, req.user.value, req.operation) then "operation_not_allowed"
    else if Mismatched(req)
    then "mismatched_requester_identity_token=" + req.user.value.id + "_requester=" + req.requester.value.clientIdentity
    else if req.peerName.None? then "missing_peer_certificate_for_identity_check"
    else "mismatched_identity_cn=" + req.peerName.value + "_user=" + req.user.value.id
  }

  /** The requester claims to be somebody else. */
  predicate Mismatched(req: Request) {
    && req.user.Some? && req.requester.Some?
    && req.requester.value.clientIdentity != "" && req.requester.value.clientIdentity != req.user.value.id
  }

  /** What is checked before the cache is consulted. */
  ghost predicate Identified(cfg: Config, req: Request) {
    && req.user.Some?
    && Granted(cfg, req.user.value, req.operation)
    && !Mismatched(req)
    && (cfg.enforceIdentityMatch ==> req.peerName == Some(req.user.value.id))
  }

  method CheckAuthorization(cfg: Config, lookup: Lookups, user: User, req: Request) returns (ok: bool, reason: string)
    ensures ok <==> Uncached(cfg, lookup, user, req)
    ensures reason == UncachedReason(cfg, lookup, user, req)
  {
    for i := 0 to |user.permissions|
      invariant forall j :: 0 <= j < i ==> !RoleIsAdmin(cfg, user.permissions[j])
    {
      var role := user.permissions[i];
      if role == "*" {
        assert RoleIsAdmin(cfg, user.permissions[i]);
        return true, "authorized_by_admin_role";
      }
      if role in cfg.roles && "*" in cfg.roles[role] {
        assert RoleIsAdmin(cfg, user.permissions[i]);
        return true, "authorized_by_admin_role";
      }
    }
    if req.keyId == NIL_UUID {
      return true, "authorized";
    }
    if req.operation in KEY_SCOPES {
      var key := lookup(req.keyId);
      if key.Err? {
        return false, if key.error == KeyNotFound then "key_not_found" else "internal_error_accessing_key";
      }
      if user.id !in key.value.row.metadata.authorizedContexts {
        return false, "insufficient_key_permissions";
      }
      if req.requester.None? {
        return false, "requester_context_is_required_for_tier_validation";
      }
      if !TierAllows(req.requester.value.tier, key.value.row.metadata.storageType) {
        return false, TierDenial(req.requester.value.tier, key.value.row.metadata.storageType);
      }
    }
    return true, "authorized";
  }

  method AuthenticateAndAuthorize(cfg: Config, req: Request) returns (user: Option<User>, reason: string)
    ensures user == if req.user.Some? && Granted(cfg, req.user.value, req.operation) then req.user else None
    ensures reason == if user.Some? then "authorized" else IdentityReason(cfg, req)
  {
    if req.user.None? {
      return None, "missing_user_identity";
    }
    var permissions := req.user.value.permissions;
    for i := 0 to |permissions|
      invariant forall j :: 0 <= j < i ==> !RoleGrants(cfg, permissions[j], req.operation)
    {
      if RoleGrants(cfg, permissions[i], req.operation) {
        return req.user, "authorized";
      }
    }
    return None, "operation_not_allowed";
  }

  // ---------------------------------------------------------------- the cached authorizer

  /** An uncached allow: who, what, on which key, and when it was cached. */
  datatype Allow = Allow(userId: string, operation: string, keyId: KeyId, at: Time)

  function KeyOf(a: Allow): string { PolicyKey(a.userId, a.operation, a.keyId) }

  ghost predicate BackedBy(ck: string, item: Item<bool>, a: Allow) {
    ck == KeyOf(a) && item == Item(true, a.at + POLICY_TTL, false)
  }

  /** Some allow for the very same user, operation and key, at most five minutes old. */
  ghost predicate RecentlyAllowed(allows: set<Allow>, req: Request, now: Time) {
    && req.user.Some?
    && exists a :: a in allows && now <= a.at + POLICY_TTL &&
         a.userId == req.user.value.id && a.operation == req.operation && a.keyId == req.keyId
  }

  /** The cache with one more allow, good for five minutes. */
  function WithAllow(items: Items<string, bool>, userId: string, req: Request, at: Time): Items<string, bool> {
    items[PolicyKey(userId, req.operation, req.keyId) := Item(true, at + 5 * MINUTE, false)]
  }

  /** The request's policy key is live in the cache. */
  predicate CachedFor(items: Items<string, bool>, req: Request, now: Time) {
    req.user.Some? && Lookup(items, PolicyKey(req.user.value.id, req.operation, req.keyId), now).Some?
  }

  ghost predicate AllScopes(allows: set<Allow>, req: Request) {
    req.operation in SCOPES && forall a :: a in allows ==> a.operation in SCOPES
  }

  /** Exactly one event was added: it is about this request, names the user, says `ok` and otherwise why not. */
  ghost predicate OneEvent(
    before: seq<AuditEvent>, after: seq<AuditEvent>, userId: string, req: Request, ok: bool, reason: string)
  {
    after == before + [AuditEvent(userId, req.operation, req.keyId, ok, if ok then None else Some(reason))]
  }

  /** A caller without a granting role stays anonymous in the audit trail. */
  ghost function AuditedAs(cfg: Config, req: Request): string {
    if req.user.Some? && Granted(cfg, req.user.value, req.operation) then req.user.value.id else ""
  }

  class Authorizer {
    const cfg: Config
    const policyCache: Cache<string, bool>
    var audit: seq<AuditEvent>
    ghost var allows: set<Allow>

    /** The cache only holds `true`, and each entry stems from an uncached allow. */
    ghost predicate Valid()
      reads this, policyCache
    {
      && policyCache.defaultTtl == POLICY_TTL
      && forall ck :: ck in policyCache.items ==> exists a :: a in allows && BackedBy(ck, policyCache.items[ck], a)
    }

    constructor (cfg: Config)
      ensures Valid() && this.cfg == cfg && audit == [] && allows == {} && fresh(policyCache)
    {
      this.cfg := cfg;
      policyCache := new Cache(POLICY_TTL);
      audit := [];
      allows := {};
    }

    method Log(userId: string, req: Request, success: bool, reason: string)
      modifies this`audit
      ensures OneEvent(old(audit), audit, userId, req, success, reason)
    {
      audit := audit + [AuditEvent(userId, req.operation, req.keyId, success, if success then None else Some(reason))];
    }

    /** The part of Authorize behind the identity checks: cache, then decision. */
    method AuthorizeIdentified(user: User, req: Request, lookup: Lookups, now: Time, setAt: Time) returns (ok: bool, reason: string)
      requires Valid() && req.user == Some(user)
      modifies this`audit, this`allows, policyCache
      ensures Valid() && OneEvent(old(audit), audit, user.id, req, ok, reason)
      ensures ok <==> (CachedFor(old(policyCache.items), req, now) || Uncached(cfg, lookup, user, req))
      ensures reason == if CachedFor(old(policyCache.items), req, now) then "authorized_by_cache" else UncachedReason(cfg, lookup, user, req)
      ensures policyCache.items ==
        if !CachedFor(old(policyCache.items), req, now) && Uncached(cfg, lookup, user, req)
        then WithAllow(old(policyCache.items), user.id, req, setAt) else old(policyCache.items)
      ensures CachedFor(old(policyCache.items), req, now) && AllScopes(old(allows), req) ==> RecentlyAllowed(old(allows), req, now)
      ensures allows == old(allows) ||
        (Uncached(cfg, lookup, user, req) && allows == old(allows) + {Allow(user.id, req.operation, req.keyId, setAt)})
    {
      var ck := PolicyKey(user.id, req.operation, req.keyId);
      var cached := policyCache.Get(ck, now);
      if cached.Some? {
        HitIsAllow(policyCache.items, allows, req, now);
        if !cached.value {
          // "operation_not_allowed_by_cache": a denial is never cached.
          assert false;
        }
        reason := "authorized_by_cache";
        Log(user.id, req, true, reason);
        return true, reason;
      }
      ok, reason := CheckAuthorization(cfg, lookup, user, req);
      if ok {
        ghost var allow := Allow(user.id, req.operation, req.keyId, setAt);
        policyCache.Set(ck, true, 0, setAt);
        allows := allows + {allow};
        assert BackedBy(ck, policyCache.items[ck], allow);
      }
      Log(user.id, req, ok, reason);
    }

    /** One audit event per call, saying what was decided.  A request is allowed exactly when it is
        identified and either cached or allowed now; and when all operations are scopes, "cached" means
        that the same user was allowed the same operation on the same key within five minutes. */
    method Authorize(req: Request, lookup: Lookups, now: Time, setAt: Time) returns (ok: bool, reason: string)
      requires Valid()
      modifies this`audit, this`allows, policyCache
      ensures Valid() && OneEvent(old(audit), audit, AuditedAs(cfg, req), req, ok, reason)
      ensures ok <==> (Identified(cfg, req) && (CachedFor(old(policyCache.items), req, now) || Uncached(cfg, lookup, req.user.value, req)))
      ensures reason ==
        if !Identified(cfg, req) then IdentityReason(cfg, req)
        else if CachedFor(old(policyCache.items), req, now) then "authorized_by_cache"
        else UncachedReason(cfg, lookup, req.user.value, req)
      ensures policyCache.items ==
        if ok && !CachedFor(old(policyCache.items), req, now)
        then WithAllow(old(policyCache.items), req.user.value.id, req, setAt) else old(policyCache.items)
      ensures ok && CachedFor(old(policyCache.items), req, now) && AllScopes(old(allows), req) ==> RecentlyAllowed(old(allows), req, now)
      ensures allows == old(allows) ||
        (ok && Uncached(cfg, lookup, req.user.value, req) &&
         allows == old(allows) + {Allow(req.user.value.id, req.operation, req.keyId, setAt)})
    {
      var user, why := AuthenticateAndAuthorize(cfg, req);
      if user.None? {
        Log("", req, false, why);
        return false, why;
      }
      var id := user.value.id;
      if req.requester.Some? && req.requester.value.clientIdentity != "" && req.requester.value.clientIdentity != id {
        reason := "mismatched_requester_identity_token=" + id + "_requester=" + req.requester.value.clientIdentity;
        Log(id, req, false, reason);
        return false, reason;
      }
      if cfg.enforceIdentityMatch {
        if req.peerName.None? {
          reason := "missing_peer_certificate_for_identity_check";
          Log(id, req, false, reason);
          return false, reason;
        }
        if req.peerName.value != id {
          reason := "mismatched_identity_cn=" + req.peerName.value + "_user=" + id;
          Log(id, req, false, reason);
          return false, reason;
        }
      }
      ok, reason := AuthorizeIdentified(user.value, req, lookup, now, setAt);
    }

    /** The cleanup pass drops entries, so what is left is still backed. */
    method Sweep(now: Time)
      requires Valid()
      modifies policyCache
      ensures Valid() && policyCache.items == Swept(old(policyCache.items), now)
    {
      var _ := policyCache.DeleteExpired(now);
    }
  }

  lemma HitIsAllow(items: Items<string, bool>, allows: set<Allow>, req: Request, now: Time)
    requires forall ck :: ck in items ==> exists a :: a in allows && BackedBy(ck, items[ck], a)
    requires CachedFor(items, req, now)
    ensures Lookup(items, PolicyKey(req.user.value.id, req.operation, req.keyId), now) == Some(true)
    ensures AllScopes(allows, req) ==> RecentlyAllowed(allows, req, now)
  {
    var ck := PolicyKey(req.user.value.id, req.operation, req.keyId);
    var a :| a in allows && BackedBy(ck, items[ck], a);
    if req.operation in SCOPES && a.operation in SCOPES {
      PolicyKeyInjective(a.userId, a.operation, a.keyId, req.user.value.id, req.operation, req.keyId);
    }
  }

  // ---------------------------------------------------------------- the cache key

  /** Two policy keys agree exactly when the key ids do and the user and operation parts, joined by a
      colon, do: key ids have a fixed length. */
  lemma PolicyKeyEqualIff(u: string, op: string, k: KeyId, u': string, op': string, k': KeyId)
    ensures PolicyKey(u, op, k) == PolicyKey(u', op', k') <==> k == k' && u + ":" + op == u' + ":" + op'
  {
    var a, b := PolicyKey(u, op, k), PolicyKey(u', op', k');
    assert a == (u + ":" + op) + (":" + k) && b == (u' + ":" + op') + (":" + k');
    if a == b {
      assert a[|a| - 36..] == k && b[|b| - 36..] == k';
      assert a[..|a| - 37] == u + ":" + op && b[..|b| - 37] == u' + ":" + op';
    }
  }

  /** No scope ends in a colon followed by another scope's last word, so even when user ids contain
      colons the key tells user, scope and key apart. */
  lemma PolicyKeyInjective(u: string, op: string, k: KeyId, u': string, op': string, k': KeyId)
    requires op in SCOPES && op' in SCOPES && PolicyKey(u, op, k) == PolicyKey(u', op', k')
    ensures u == u' && op == op' && k == k'
  {
    PolicyKeyEqualIff(u, op, k, u', op', k');
    var s := u + ":" + op;
    assert s == u' + ":" + op';
    assert s[|s| - 5] == op[|op| - 5] && s[|s| - 5] == op'[|op'| - 5];
    assert |op| == |op'|;
    assert s[|u|..] == ":" + op && s[|u'|..] == ":" + op';
    assert s[..|u|] == u && s[..|u'|] == u';
    assert op == (":" + op)[1..] && op' == (":" + op')[1..];
  }

  /** With operations that are not scopes it would not. */
  lemma OtherOperationsCollide(k: KeyId)
    ensures PolicyKey("a:b", "c", k) == PolicyKey("a", "b:c", k)
  {
    assert "a:b" + ":" + "c" == "a" + ":" + "b:c";
  }
}
