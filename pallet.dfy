/** The pallet as an object over its three storage maps: each dispatchable
    checks its guards first and only then inserts into or removes from the
    maps, as the extrinsics do. */
module CallRbac {
  import opened Types
  import opened CallIndices
  import opened Rbac

  class Pallet {
    var roles: map<(OrgId, AccountId), Role>
    var permissions: set<(AccountId, OrgId)>
    var allowedCalls: map<OrgId, seq<CallIndex>>
    /** The `MaxCalls` constant of the runtime configuration. */
    const maxCalls: u32

    function State(): Storage
      reads this
    {
      Storage(roles, permissions, allowedCalls)
    }

    constructor (maxCalls: u32)
      ensures State() == Empty && this.maxCalls == maxCalls
    {
      roles, permissions, allowedCalls := map[], {}, map[];
      this.maxCalls := maxCalls;
    }

    method GrantAccess(origin: Origin, org: OrgId, who: AccountId, role: Role)
      returns (r: DispatchResult, events: seq<Event>)
      modifies this
      ensures Transition(r, State(), events) == Rbac.GrantAccess(old(State()), origin, org, who, role)
    {
      var checked := EnsureOrigin(roles, origin, org);
      if checked.Err? {
        return Err(checked.error), [];
      }
      if checked.value && role == Admin {
        return Err(Module(OnlySuperSetsAdmin)), [];
      }
      events := [];
      if (org, who) in roles {
        var prev := roles[(org, who)];
        if prev == Admin {
          return Err(Module(OnlySuperSetsAdmin)), [];
        }
        events := events + [AccessRevoked(org, who, prev)];
      } else if role == Executer {
        permissions := permissions + {(who, org)};
      }
      roles := roles[(org, who) := role];
      events := events + [AccessGranted(org, who, role)];
      r := Ok(());
    }

    method RevokeAccess(origin: Origin, org: OrgId, who: AccountId)
      returns (r: DispatchResult, events: seq<Event>)
      modifies this
      ensures Transition(r, State(), events) == Rbac.RevokeAccess(old(State()), origin, org, who)
    {
      var checked := EnsureOrigin(roles, origin, org);
      if checked.Err? {
        return Err(checked.error), [];
      }
      if (org, who) !in roles {
        return Err(Module(PermissionDNE)), [];
      }
      var role := roles[(org, who)];
      if checked.value && role == Admin {
        return Err(Module(OnlySuperSetsAdmin)), [];
      }
      permissions := permissions - {(who, org)};
      roles := roles - {(org, who)};
      return Ok(()), [AccessRevoked(org, who, role)];
    }

    method SetCalls(origin: Origin, org: OrgId, calls: seq<RuntimeCall>)
      returns (r: DispatchResult, events: seq<Event>)
      modifies this
      ensures Transition(r, State(), events) == Rbac.SetCalls(old(State()), maxCalls, origin, org, calls)
    {
      if !origin.Root? {
        return Err(BadOrigin), [];
      }
      if |calls| > maxCalls as int {
        return Err(Module(TooManyCalls)), [];
      }
      var indices := CallsToIndices(calls);
      if indices.Err? {
        return Err(indices.error), [];
      }
      allowedCalls := allowedCalls[org := indices.value];
      return Ok(()), [CallsUpdated(org)];
    }

    /** `validate_call`: walks the orgs in which `who` has a permission
        entry, in no particular order, and stops at the first whose
        whitelist contains the call's index. */
    method ValidateCall(who: AccountId, call: RuntimeCall) returns (ok: bool)
      ensures ok == Validates(State(), who, call)
    {
      var index := CallToIndex(call);
      if index.Err? {
        return false;
      }
      var orgs := set p | p in permissions && p.0 == who :: p.1;
      ghost var all := orgs;
      while orgs != {}
        invariant orgs <= all
        invariant forall g :: g in all && g !in orgs ==> index.value !in AllowedCallsOf(State(), g)
        decreases orgs
      {
        var org :| org in orgs;
        if index.value in AllowedCallsOf(State(), org) {
          return true;
        }
        orgs := orgs - {org};
      }
      return false;
    }

    /** `execute_call`: a signed origin only; the call is dispatched, under
        the caller's own origin, only when it validates. `dispatch` stands for
        the outcome the runtime would report for that dispatch. */
    method ExecuteCall(origin: Origin, call: RuntimeCall, dispatch: DispatchResult)
      returns (r: DispatchResult, dispatchedAs: Option<Origin>)
      ensures !origin.Signed? ==> r == Err(BadOrigin) && dispatchedAs == None
      ensures origin.Signed? && !Validates(State(), origin.who, call) ==>
        r == Err(Module(InvalidCall)) && dispatchedAs == None
      ensures origin.Signed? && Validates(State(), origin.who, call) ==>
        r == dispatch && dispatchedAs == Some(origin)
    {
      if !origin.Signed? {
        return Err(BadOrigin), None;
      }
      var ok := ValidateCall(origin.who, call);
      if !ok {
        return Err(Module(InvalidCall)), None;
      }
      return dispatch, Some(origin);
    }
  }
}
