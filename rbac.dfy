/** The pallet's storage and its dispatchables as functions from the old
    storage to a `Transition`: the result, the new storage and the events. */
module Rbac {
  import opened Types
  import opened CallIndices

  /** The three storage maps. `Permissions` maps (account, org) to `()`, so
      it is the set of its keys. */
  datatype Storage = Storage(
    roles: map<(OrgId, AccountId), Role>,
    permissions: set<(AccountId, OrgId)>,
    allowedCalls: map<OrgId, seq<CallIndex>>)

  const Empty := Storage(map[], {}, map[])

  datatype Transition = Transition(result: DispatchResult, post: Storage, events: seq<Event>)

  predicate HasRole(roles: map<(OrgId, AccountId), Role>, org: OrgId, who: AccountId, role: Role) {
    (org, who) in roles && roles[(org, who)] == role
  }

  /** `AllowedCalls` is a value query: an org without an entry reads as []. */
  function AllowedCallsOf(s: Storage, org: OrgId): seq<CallIndex> {
    if org in s.allowedCalls then s.allowedCalls[org] else []
  }

  /** `ensure_origin`: `Ok(false)` for the super user, `Ok(true)` for an
      admin of `org`; a signed caller without a role in `org` gets the super
      user check's own error, `BadOrigin`. */
  function EnsureOrigin(roles: map<(OrgId, AccountId), Role>, origin: Origin, org: OrgId): (r: Result<bool>)
    ensures r == Ok(false) <==> origin.Root?
    ensures r == Ok(true) <==> origin.Signed? && HasRole(roles, org, origin.who, Admin)
    ensures r == Err(Module(CallerNotAdmin)) <==> origin.Signed? && HasRole(roles, org, origin.who, Executer)
    ensures r == Err(BadOrigin) <==> origin.NoneOrigin? || (origin.Signed? && (org, origin.who) !in roles)
  {
    if origin.Root? then Ok(false)
    else if !origin.Signed? then Err(BadOrigin)
    else if (org, origin.who) !in roles then Err(BadOrigin)
    else if roles[(org, origin.who)] != Admin then Err(Module(CallerNotAdmin))
    else Ok(true)
  }

  /** `grant_access`. An org admin may not grant Admin, and nobody may
      overwrite an existing Admin; an existing Executer is replaced, and the
      permission index is only written on a first grant. */
  function GrantAccess(s: Storage, origin: Origin, org: OrgId, who: AccountId, role: Role): (t: Transition)
    ensures EnsureOrigin(s.roles, origin, org).Err? ==>
      t.result == Err(EnsureOrigin(s.roles, origin, org).error)
    ensures EnsureOrigin(s.roles, origin, org).Ok? ==>
      (t.result.Err? <==>
        (EnsureOrigin(s.roles, origin, org).value && role == Admin) || HasRole(s.roles, org, who, Admin))
    ensures EnsureOrigin(s.roles, origin, org).Ok? && t.result.Err? ==>
      t.result.error == Module(OnlySuperSetsAdmin)
    ensures t.result.Err? ==> t.post == s && t.events == []
    ensures t.result.Ok? ==>
      && t.post.roles == s.roles[(org, who) := role]
      && t.post.allowedCalls == s.allowedCalls
      && t.post.permissions ==
           (if (org, who) !in s.roles && role == Executer then s.permissions + {(who, org)} else s.permissions)
    ensures t.result.Ok? ==>
      t.events == (if (org, who) in s.roles then [AccessRevoked(org, who, s.roles[(org, who)])] else [])
                  + [AccessGranted(org, who, role)]
  {
    match EnsureOrigin(s.roles, origin, org)
    case Err(e) => Transition(Err(e), s, [])
    case Ok(isAdminNotSuper) =>
      if isAdminNotSuper && role == Admin then
        Transition(Err(Module(OnlySuperSetsAdmin)), s, [])
      else if (org, who) in s.roles then
        var prev := s.roles[(org, who)];
        if prev == Admin then
          Transition(Err(Module(OnlySuperSetsAdmin)), s, [])
        else
          Transition(Ok(()), s.(roles := s.roles[(org, who) := role]),
                     [AccessRevoked(org, who, prev), AccessGranted(org, who, role)])
      else
        var perms := if role == Executer then s.permissions + {(who, org)} else s.permissions;
        Transition(Ok(()), s.(roles := s.roles[(org, who) := role], permissions := perms),
                   [AccessGranted(org, who, role)])
  }

  /** `revoke_access`. The role must exist; an org admin may not revoke an
      Admin; the index entry is removed whatever the role was. */
  function RevokeAccess(s: Storage, origin: Origin, org: OrgId, who: AccountId): (t: Transition)
    ensures EnsureOrigin(s.roles, origin, org).Err? ==>
      t.result == Err(EnsureOrigin(s.roles, origin, org).error)
    ensures EnsureOrigin(s.roles, origin, org).Ok? && (org, who) !in s.roles ==>
      t.result == Err(Module(PermissionDNE))
    ensures EnsureOrigin(s.roles, origin, org).Ok? && (org, who) in s.roles ==>
      && (t.result.Err? <==> EnsureOrigin(s.roles, origin, org).value && s.roles[(org, who)] == Admin)
      && (t.result.Err? ==> t.result.error == Module(OnlySuperSetsAdmin))
    ensures t.result.Err? ==> t.post == s && t.events == []
    ensures t.result.Ok? ==>
      && (org, who) in s.roles
      && t.post == Storage(s.roles - {(org, who)}, s.permissions - {(who, org)}, s.allowedCalls)
      && t.events == [AccessRevoked(org, who, s.roles[(org, who)])]
  {
    match EnsureOrigin(s.roles, origin, org)
    case Err(e) => Transition(Err(e), s, [])
    case Ok(isAdminNotSuper) =>
      if (org, who) !in s.roles then
        Transition(Err(Module(PermissionDNE)), s, [])
      else
        var role := s.roles[(org, who)];
        if isAdminNotSuper && role == Admin then
          Transition(Err(Module(OnlySuperSetsAdmin)), s, [])
        else
          Transition(Ok(()), Storage(s.roles - {(org, who)}, s.permissions - {(who, org)}, s.allowedCalls),
                     [AccessRevoked(org, who, role)])
  }

  /** `set_calls`: super user only, at most `maxCalls` calls, every call
      indexable; on success the org's whitelist is replaced wholesale. */
  function SetCalls(s: Storage, maxCalls: u32, origin: Origin, org: OrgId, calls: seq<RuntimeCall>): (t: Transition)
    ensures !origin.Root? ==> t.result == Err(BadOrigin)
    ensures origin.Root? && |calls| > maxCalls as int ==> t.result == Err(Module(TooManyCalls))
    ensures origin.Root? && |calls| <= maxCalls as int ==>
      (t.result.Err? <==> exists i :: 0 <= i < |calls| && !Encodable(calls[i]))
    ensures origin.Root? && |calls| <= maxCalls as int && t.result.Err? ==>
      t.result.error == Module(EncodingFailed)
    ensures t.result.Err? ==> t.post == s && t.events == []
    ensures t.result.Ok? ==>
      && t.post.roles == s.roles
      && t.post.permissions == s.permissions
      && t.post.allowedCalls.Keys == s.allowedCalls.Keys + {org}
      && (forall g :: g != org ==> AllowedCallsOf(t.post, g) == AllowedCallsOf(s, g))
      && t.events == [CallsUpdated(org)]
    ensures t.result.Ok? ==>
      && IndicesOf(calls).Ok?
      && AllowedCallsOf(t.post, org) == IndicesOf(calls).value
      && NoDuplicates(AllowedCallsOf(t.post, org))
      && |AllowedCallsOf(t.post, org)| <= |calls| <= maxCalls as int
      && forall x :: x in AllowedCallsOf(t.post, org) <==>
           exists i :: 0 <= i < |calls| && CallToIndex(calls[i]) == Ok(x)
  {
    if !origin.Root? then
      Transition(Err(BadOrigin), s, [])
    else if |calls| > maxCalls as int then
      Transition(Err(Module(TooManyCalls)), s, [])
    else
      match IndicesOf(calls)
      case Err(e) => Transition(Err(e), s, [])
      case Ok(indices) =>
        Transition(Ok(()), s.(allowedCalls := s.allowedCalls[org := indices]), [CallsUpdated(org)])
  }

  /** `validate_call`: the call has an index and some org in which `who` has
      a permission entry whitelists it. The order of the orgs is irrelevant. */
  predicate Validates(s: Storage, who: AccountId, call: RuntimeCall) {
    match CallToIndex(call)
    case Err(_) => false
    case Ok(index) =>
      exists p :: p in s.permissions && p.0 == who && index in AllowedCallsOf(s, p.1)
  }

  /** Every Executer has a permission entry. */
  ghost predicate IndexComplete(s: Storage) {
    forall k :: k in s.roles && s.roles[k] == Executer ==> (k.1, k.0) in s.permissions
  }

  /** Every permission entry belongs to an account with some role in the org. */
  ghost predicate IndexSound(s: Storage) {
    forall p :: p in s.permissions ==> (p.1, p.0) in s.roles
  }

  /** The intended reading of the index: an entry exists iff the role is Executer. */
  ghost predicate IndexExact(s: Storage) {
    && IndexComplete(s)
    && forall p :: p in s.permissions ==> HasRole(s.roles, p.1, p.0, Executer)
  }

  /** Every whitelist is duplicate-free and within the configured maximum. */
  ghost predicate WhitelistsBounded(s: Storage, maxCalls: u32) {
    forall org :: org in s.allowedCalls ==>
      NoDuplicates(s.allowedCalls[org]) && |s.allowedCalls[org]| <= maxCalls as int
  }
}
