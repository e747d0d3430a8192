/** Properties of the pallet's dispatchables over sequences of calls and
    across its three storage maps. */
module RbacProperties {
  import opened Types
  import opened CallIndices
  import opened Rbac

  /** An admin of one org is not an admin of another: acting on an org where
      it holds no role, it is rejected with the super user check's error. */
  lemma CrossOrgAdminIsBadOrigin(s: Storage, admin: AccountId, org: OrgId, other: OrgId, who: AccountId, role: Role)
    requires HasRole(s.roles, org, admin, Admin) && (other, admin) !in s.roles
    ensures GrantAccess(s, Signed(admin), other, who, role) == Transition(Err(BadOrigin), s, [])
    ensures RevokeAccess(s, Signed(admin), other, who) == Transition(Err(BadOrigin), s, [])
  {
  }

  /** Only the super user sets Admin, and not even the super user may
      overwrite an existing Admin through `grant_access`. */
  lemma AdminRoleGuards(s: Storage, origin: Origin, org: OrgId, who: AccountId, role: Role)
    requires origin.Root? || (origin.Signed? && HasRole(s.roles, org, origin.who, Admin))
    requires (!origin.Root? && role == Admin) || HasRole(s.roles, org, who, Admin)
    ensures GrantAccess(s, origin, org, who, role) == Transition(Err(Module(OnlySuperSetsAdmin)), s, [])
  {
  }

  /** Every grant keeps "every Executer has an entry" and "every entry has
      a role", the re-grant path included. */
  lemma GrantPreservesIndex(s: Storage, origin: Origin, org: OrgId, who: AccountId, role: Role)
    requires IndexComplete(s) && IndexSound(s)
    ensures IndexComplete(GrantAccess(s, origin, org, who, role).post)
    ensures IndexSound(GrantAccess(s, origin, org, who, role).post)
  {
  }

  /** Every revoke keeps the same two invariants. */
  lemma RevokePreservesIndex(s: Storage, origin: Origin, org: OrgId, who: AccountId)
    requires IndexComplete(s) && IndexSound(s)
    ensures IndexComplete(RevokeAccess(s, origin, org, who).post)
    ensures IndexSound(RevokeAccess(s, origin, org, who).post)
  {
  }

  /** `set_calls` keeps every whitelist duplicate-free and within `MaxCalls`,
      and leaves the role store and the index alone. */
  lemma SetCallsPreservesInvariants(s: Storage, maxCalls: u32, origin: Origin, org: OrgId, calls: seq<RuntimeCall>)
    requires WhitelistsBounded(s, maxCalls)
    ensures WhitelistsBounded(SetCalls(s, maxCalls, origin, org, calls).post, maxCalls)
    ensures IndexExact(s) ==> IndexExact(SetCalls(s, maxCalls, origin, org, calls).post)
  {
  }

  /** The exact reading of the index (entry iff Executer) survives a grant
      exactly when it is not the super user re-granting an Executer as Admin;
      the same attempt by anyone else fails and changes nothing. */
  lemma GrantPreservesIndexExact(s: Storage, origin: Origin, org: OrgId, who: AccountId, role: Role)
    requires IndexExact(s)
    ensures IndexExact(GrantAccess(s, origin, org, who, role).post) <==>
      !(origin.Root? && HasRole(s.roles, org, who, Executer) && role == Admin)
  {
  }

  lemma RevokePreservesIndexExact(s: Storage, origin: Origin, org: OrgId, who: AccountId)
    requires IndexExact(s)
    ensures IndexExact(RevokeAccess(s, origin, org, who).post)
  {
  }

  /** Re-granting an Executer as Admin succeeds for the super user, emits a
      revoke and a grant, but keeps the index entry: the new Admin still
      passes the call gate for the org's whitelist. */
  lemma RegrantLeavesStaleIndexEntry(s: Storage, org: OrgId, who: AccountId, call: RuntimeCall)
    requires IndexExact(s) && HasRole(s.roles, org, who, Executer)
    requires CallToIndex(call).Ok? && CallToIndex(call).value in AllowedCallsOf(s, org)
    ensures GrantAccess(s, Root, org, who, Admin).result.Ok?
    ensures GrantAccess(s, Root, org, who, Admin).events ==
      [AccessRevoked(org, who, Executer), AccessGranted(org, who, Admin)]
    ensures HasRole(GrantAccess(s, Root, org, who, Admin).post.roles, org, who, Admin)
    ensures (who, org) in GrantAccess(s, Root, org, who, Admin).post.permissions
    ensures !IndexExact(GrantAccess(s, Root, org, who, Admin).post)
    ensures Validates(GrantAccess(s, Root, org, who, Admin).post, who, call)
  {
  }

  /** A concrete trace into the state that breaks the exact index: the super
      user grants account 1 Executer in org 0, then Admin. */
  lemma StaleIndexEntryExample()
    ensures GrantAccess(Empty, Root, 0, 1, Executer).result.Ok?
    ensures IndexExact(GrantAccess(Empty, Root, 0, 1, Executer).post)
    ensures GrantAccess(GrantAccess(Empty, Root, 0, 1, Executer).post, Root, 0, 1, Admin).result.Ok?
    ensures !IndexExact(GrantAccess(GrantAccess(Empty, Root, 0, 1, Executer).post, Root, 0, 1, Admin).post)
  {
  }

  /** A first grant followed by the super user's revoke restores the storage
      exactly, whichever role was granted. */
  lemma GrantThenRevokeRestores(s: Storage, origin: Origin, org: OrgId, who: AccountId, role: Role)
    requires IndexSound(s) && (org, who) !in s.roles
    requires GrantAccess(s, origin, org, who, role).result.Ok?
    ensures RevokeAccess(GrantAccess(s, origin, org, who, role).post, Root, org, who) ==
      Transition(Ok(()), s, [AccessRevoked(org, who, role)])
  {
  }

  /** The gate passes only through a permission entry; with a sound index
      that entry belongs to an account holding a role in that org. */
  lemma ValidatesNeedsMembership(s: Storage, who: AccountId, call: RuntimeCall)
    requires Validates(s, who, call)
    ensures CallToIndex(call).Ok?
    ensures exists org :: (who, org) in s.permissions && CallToIndex(call).value in AllowedCallsOf(s, org)
    ensures IndexSound(s) ==>
      exists org :: (org, who) in s.roles && CallToIndex(call).value in AllowedCallsOf(s, org)
  {
  }

  /** An account with no permission entry is refused every call. */
  lemma NoMembershipNeverValidates(s: Storage, who: AccountId, call: RuntimeCall)
    requires forall org :: (who, org) !in s.permissions
    ensures !Validates(s, who, call)
  {
  }

  /** With the exact index, the gate passes exactly when the caller is an
      Executer of some org whose whitelist holds the call's index. */
  lemma ValidatesIffExecuter(s: Storage, who: AccountId, call: RuntimeCall)
    requires IndexExact(s)
    ensures Validates(s, who, call) <==>
      CallToIndex(call).Ok? &&
      exists org :: HasRole(s.roles, org, who, Executer) && CallToIndex(call).value in AllowedCallsOf(s, org)
  {
  }

  /** The gate sees only the two-byte prefix: calls sharing it get the same
      verdict, and a call with a shorter encoding never passes. */
  lemma ValidatesOnlyOnPrefix(s: Storage, who: AccountId, c1: RuntimeCall, c2: RuntimeCall)
    ensures !Encodable(c1) ==> !Validates(s, who, c1)
    ensures Encodable(c1) && Encodable(c2) && c1.encoding[..2] == c2.encoding[..2] ==>
      Validates(s, who, c1) == Validates(s, who, c2)
  {
  }

  /** After the super user sets an org's calls, every account with a
      permission entry in that org passes the gate for each of those calls. */
  lemma SetCallsThenMembersValidate(s: Storage, maxCalls: u32, org: OrgId, calls: seq<RuntimeCall>, who: AccountId)
    requires (who, org) in s.permissions
    requires SetCalls(s, maxCalls, Root, org, calls).result.Ok?
    ensures forall i :: 0 <= i < |calls| ==> Validates(SetCalls(s, maxCalls, Root, org, calls).post, who, calls[i])
  {
  }

  /** Storage states and calls of the scenario below. */
  const Transfer := RuntimeCall([5, 0, 2, 5])
  const OtherTransfer := RuntimeCall([5, 0, 3, 100])
  const AfterAdmin := Storage(map[(7, 1) := Admin], {}, map[])
  const AfterExecuter := Storage(map[(7, 1) := Admin, (7, 2) := Executer], {(2, 7)}, map[])
  const AfterSetCalls := AfterExecuter.(allowedCalls := map[7 := [(5, 0)]])

  /** A run through the pallet: the super user appoints account 1 admin of
      org 7; the admin makes account 2 an Executer but may not make account 3
      an Admin; the super user whitelists a transfer (pallet 5, call 0). Account
      2 passes the gate for it and for any other call with the same two leading
      bytes; the admin and account 3 do not. */
  lemma DelegationScenario()
    ensures GrantAccess(Empty, Root, 7, 1, Admin) ==
      Transition(Ok(()), AfterAdmin, [AccessGranted(7, 1, Admin)])
    ensures GrantAccess(AfterAdmin, Signed(1), 7, 2, Executer) ==
      Transition(Ok(()), AfterExecuter, [AccessGranted(7, 2, Executer)])
    ensures GrantAccess(AfterExecuter, Signed(1), 7, 3, Admin) ==
      Transition(Err(Module(OnlySuperSetsAdmin)), AfterExecuter, [])
    ensures SetCalls(AfterExecuter, 10, Root, 7, [Transfer]) ==
      Transition(Ok(()), AfterSetCalls, [CallsUpdated(7)])
    ensures Validates(AfterSetCalls, 2, Transfer) && Validates(AfterSetCalls, 2, OtherTransfer)
    ensures !Validates(AfterSetCalls, 1, Transfer) && !Validates(AfterSetCalls, 3, Transfer)
  {
  }
}
