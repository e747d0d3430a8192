# Call-RBAC pallet, modelled in Dafny

A model of the call-RBAC FRAME pallet in `src/lib.rs`. The pallet gates
runtime calls by role. A super user (the root origin in the test runtime)
appoints admins of an organisation ("org", a `u64`). Org admins grant and
revoke the Executer role in their own org. The super user sets each org's
whitelist of call indices: the first two bytes (pallet byte, call byte) of a
call's SCALE encoding. A signed account may execute a call when some org in
which it has a permission entry whitelists the call's index.

The model has three layers:

- `Types` (`types.dfy`): roles, origins (`Root`, `Signed`, `NoneOrigin`),
  calls as their encoded bytes, the pallet's error enum, dispatch errors and
  events.
- `CallIndices` (`indices.dfy`): `call_to_index` and `calls_to_indices`. The
  latter is an imperative loop, proved against the order-preserving
  de-duplication `Dedup`.
- `Rbac` (`rbac.dfy`): the three storage maps as one value (`Roles`,
  `Permissions` as a set of its keys, `AllowedCalls` read as a value query),
  plus `ensure_origin`. Each dispatchable is a function from the old storage
  to a `Transition`: the result, the new storage and the events emitted.
  The validation predicate is an existential over the permission entries.
- `CallRbac` (`pallet.dfy`): class `Pallet` with the three maps as fields.
  Its methods update them in place after checking their guards, as the
  extrinsics do. Each state-changing method is proved equal to its `Rbac`
  function. `ValidateCall` walks the caller's orgs in an unspecified order.
- `RbacProperties` (`properties.dfy`): invariants of the permission index,
  round trips, characterisations of the call gate, and a concrete run.

Behaviour of `src/lib.rs` that the model keeps and exhibits:

- `grant_access` on an account that already holds Executer replaces the role.
  It emits `AccessRevoked` and then `AccessGranted`, and leaves `Permissions`
  untouched.
- So when the super user re-grants an Executer as Admin, the permission entry
  stays behind. "A permission entry exists iff the role is Executer" is
  preserved by every other transition, but not by this one
  (`RegrantLeavesStaleIndexEntry`, `StaleIndexEntryExample`). The promoted
  Admin still passes the call gate for the org's whitelist.
- The weaker pair of invariants is preserved by every transition. These are
  "every Executer has an entry" and "every entry has some role".
- A signed account with no role in the org fails `ensure_origin` with
  `BadOrigin`, the super-user check's own error, rather than `CallerNotAdmin`.
- Only the two-byte prefix of a call is checked. Any two calls that share the
  pallet and call bytes get the same verdict.

The repository's test files exercise a later version of this pallet: a
fail-on-existing grant, per-call origins and other error names. The model
follows `src/lib.rs`. It uses the tests only where they agree with that code,
for example an admin of one org acting on another org gets `BadOrigin`.

## Model

| member | source | states |
|---|---|---|
| `Rbac.EnsureOrigin` | src/lib.rs:250-266 | `Ok(false)` exactly for the super user. `Ok(true)` exactly for a signed Admin of the org. `CallerNotAdmin` exactly for a signed Executer of the org. `BadOrigin` for an unsigned origin or a signed account with no role in the org. |
| `Rbac.GrantAccess` | src/lib.rs:135-159 | Origin errors come first. Otherwise it fails `OnlySuperSetsAdmin` iff an org admin grants Admin or the target already is Admin. A failure changes nothing and emits nothing. Success sets the role; only a first Executer grant inserts the permission entry. Success leaves the whitelists alone and emits `AccessRevoked(prev)` (on a re-grant) then `AccessGranted`. |
| `Rbac.RevokeAccess` | src/lib.rs:161-173 | Origin errors come first. A missing role fails `PermissionDNE`. An org admin revoking an Admin fails `OnlySuperSetsAdmin`. A failure changes nothing. Success removes the role and, unconditionally, the permission entry, changes nothing else and emits `AccessRevoked(role)`. |
| `Rbac.SetCalls` | src/lib.rs:175-190 | A non-root origin fails `BadOrigin`. More than `MaxCalls` calls fails `TooManyCalls`. A call without two encoded bytes fails `EncodingFailed`. A failure changes nothing. Success replaces only that org's whitelist, with the `calls_to_indices` result: duplicate-free, no longer than the input and at most `MaxCalls`, holding exactly the calls' indices. Roles and permissions stay unchanged. |
| `CallIndices.CallToIndex` | src/lib.rs:243-249 | Succeeds iff the encoding has at least two bytes, and then the index is those first two bytes. Otherwise it fails `EncodingFailed`. |
| `CallIndices.Dedup` | src/lib.rs:231-237 | The pushed list has no duplicates, holds exactly the input's elements and is no longer than the input. |
| `CallIndices.Indices` | src/lib.rs:232-233 | One index per call, in order, each the call's `call_to_index`. |
| `CallIndices.IndicesOf` | src/lib.rs:228-240 | Fails `EncodingFailed` iff some call cannot be indexed. Otherwise it returns a duplicate-free list, no longer than the input, whose elements are exactly the calls' indices. |
| `CallIndices.CallsToIndices` | src/lib.rs:228-240 | The loop that stops at the first bad call and pushes indices not yet contained returns exactly `IndicesOf(calls)`. |
| `CallIndices.SamePrefixSameIndex` | src/lib.rs:243-249 | Two encodable calls with the same first two bytes have the same index. |
| `CallIndices.DedupKeepsFirstOccurrenceOrder` | src/lib.rs:231-239 | Elements earlier in the result occur for the first time earlier in the input. |
| `CallIndices.DedupOfDistinct` | src/lib.rs:235-237 | A list with no duplicates is returned unchanged. |
| `CallIndices.DedupIdempotent` | src/lib.rs:235-237 | De-duplicating twice equals de-duplicating once. |
| `CallRbac.Pallet.constructor` | src/lib.rs:109-129 | All three storage maps start empty; `MaxCalls` is the configured constant. |
| `CallRbac.Pallet.GrantAccess` | src/lib.rs:135-159 | The in-place inserts give exactly the result, storage and events of `Rbac.GrantAccess`. |
| `CallRbac.Pallet.RevokeAccess` | src/lib.rs:161-173 | The in-place removes give exactly the result, storage and events of `Rbac.RevokeAccess`. |
| `CallRbac.Pallet.SetCalls` | src/lib.rs:175-190 | The in-place insert gives exactly the result, storage and events of `Rbac.SetCalls`. |
| `CallRbac.Pallet.ValidateCall` | src/lib.rs:211-222 | Walking the caller's permission entries in any order with an early return gives true iff the call has an index and some org where the caller has an entry whitelists it. |
| `CallRbac.Pallet.ExecuteCall` | src/lib.rs:197-208 | A non-signed origin, root included, fails `BadOrigin` with nothing dispatched. A call that does not validate fails `InvalidCall` with nothing dispatched. Otherwise the call is dispatched under the caller's own origin and its result is passed through. |
| `RbacProperties.CrossOrgAdminIsBadOrigin` | src/lib.rs:255-260 | An admin of one org, acting on an org where it holds no role, gets `BadOrigin` from grant and revoke, with no change. |
| `RbacProperties.AdminRoleGuards` | src/lib.rs:141-149 | An org admin granting Admin, or anyone overwriting an Admin, fails `OnlySuperSetsAdmin` with no change. |
| `RbacProperties.GrantPreservesIndex` | src/lib.rs:145-157 | "Every Executer has a permission entry" and "every entry has a role" hold after any grant, successful or not. |
| `RbacProperties.RevokePreservesIndex` | src/lib.rs:163-172 | The same two invariants hold after any revoke. |
| `RbacProperties.SetCallsPreservesInvariants` | src/lib.rs:182-187 | Every whitelist stays duplicate-free and within `MaxCalls`, and the exact index invariant is untouched. |
| `RbacProperties.GrantPreservesIndexExact` | src/lib.rs:141-157 | Starting from "an entry exists iff the role is Executer", a grant keeps it iff it is not the super user re-granting an Executer as Admin. |
| `RbacProperties.RevokePreservesIndexExact` | src/lib.rs:164-171 | The exact invariant survives every revoke. |
| `RbacProperties.RegrantLeavesStaleIndexEntry` | src/lib.rs:145-157 | The super user re-granting an Executer as Admin succeeds and emits revoke then grant. The entry stays, the exact invariant breaks, and the new Admin still passes the gate for the org's whitelist. |
| `RbacProperties.StaleIndexEntryExample` | src/lib.rs:145-157 | From empty storage: grant Executer, then Admin, to the same account. The exact invariant holds after the first step and fails after the second. |
| `RbacProperties.GrantThenRevokeRestores` | src/lib.rs:145-172 | With a sound index, a first grant followed by the super user's revoke restores the storage exactly and emits `AccessRevoked` with the granted role. |
| `RbacProperties.ValidatesNeedsMembership` | src/lib.rs:212-222 | A passing call has an index and a permission entry for the caller whose org whitelists it. With a sound index the caller holds a role in that org. |
| `RbacProperties.NoMembershipNeverValidates` | src/lib.rs:216-221 | An account with no permission entry is refused every call. |
| `RbacProperties.ValidatesIffExecuter` | src/lib.rs:212-222 | With the exact index, a call passes iff it has an index and the caller is an Executer of an org whose whitelist holds it. |
| `RbacProperties.ValidatesOnlyOnPrefix` | src/lib.rs:212-215 | A call with a short encoding never passes. Calls sharing their first two bytes get the same verdict. |
| `RbacProperties.SetCallsThenMembersValidate` | src/lib.rs:187-187 | After a successful `set_calls`, every account with an entry in that org passes the gate for each of the calls. |
| `RbacProperties.DelegationScenario` | src/lib.rs:135-222 | Concrete run: root appoints an admin, who grants an Executer but may not grant Admin. Root whitelists a transfer. The Executer passes for it and for a same-prefix call; the admin and an outsider do not. |

## Left out

- `CallRbac.Pallet.ExecuteCall`: the dispatch itself is a parameter, the outcome the runtime would report. The model does not capture the dispatched call's effects on any storage, including a re-entrant grant, revoke or `set_calls`.
- `CallRbac.Pallet.ExecuteCall`: `T::ValidateCall` is the pallet's own `validate_call`, as configured in `src/mock.rs`; other validators are not modelled.
- The SCALE encoding of calls: a call is represented by its encoded bytes, because `encode` is library code.
- The super-user origin check: it is the root origin, as configured by `EnsureRoot` in `src/mock.rs`; other `EnsureOrigin` implementations are not modelled.
- Accounts: `AccountId` is `u64`, as in the test runtime; the pallet is generic over it and uses only equality.
- Events are returned as a sequence from each dispatchable rather than deposited into the system event log.
- Transactional storage rollback: not needed, because every error is raised before the first write.
- Weights, `WeightInfo`, storage hashers, `TypeInfo`/`MaxEncodedLen` derives and the pallet macros: framework plumbing with no effect on the logic.
- `iter_prefix` storage order: `ValidateCall` picks orgs in an arbitrary order, and its contract shows the result does not depend on it.
- `src/role.rs`: it duplicates the `Role` enum and is not a module of the crate.
- The test files and `src/mock.rs`: runtime wiring, plus tests of a later API (`CallOrigins`, `AlreadyGrantedAccess`, `AccessDNE`, `CallNotPermitted`) that `src/lib.rs` does not define.
