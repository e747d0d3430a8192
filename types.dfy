/** Value types of the call-RBAC pallet: roles, origins, calls, errors and events. */
module Types {

  newtype u8 = x: int | 0 <= x < 0x100
  newtype u32 = x: int | 0 <= x < 0x1_0000_0000
  newtype u64 = x: int | 0 <= x < 0x1_0000_0000_0000_0000

  /** The pallet is generic over the account type; the test runtime uses `u64`. */
  type AccountId = u64

  /** Identifier of an organisation (an access group). */
  type OrgId = u64

  /** The role an account holds in one organisation. */
  datatype Role = Executer | Admin

  /** The dispatch origin of an extrinsic. The super user is the root origin. */
  datatype Origin = Root | Signed(who: AccountId) | NoneOrigin

  /** A runtime call, known to the pallet only through its SCALE encoding. */
  datatype RuntimeCall = RuntimeCall(encoding: seq<u8>)

  /** Pallet index and call index: the first two bytes of an encoded call. */
  type CallIndex = (u8, u8)

  /** The pallet's own error enum. */
  datatype PalletError =
    | PermissionDNE
    | InvalidCall
    | OnlySuperSetsAdmin
    | CallerNotAdmin
    | TooManyCalls
    | EncodingFailed

  /** The errors a dispatchable can return: a bad origin, one of the pallet's
      errors, or an error passed through from a dispatched call. */
  datatype DispatchError =
    | BadOrigin
    | Module(error: PalletError)
    | Dispatched(code: nat)

  datatype Result<T> = Ok(value: T) | Err(error: DispatchError)

  datatype Option<T> = None | Some(value: T)

  type DispatchResult = Result<()>

  /** Events deposited by the pallet. */
  datatype Event =
    | AccessGranted(org: OrgId, who: AccountId, role: Role)
    | AccessRevoked(org: OrgId, who: AccountId, role: Role)
    | CallsUpdated(org: OrgId)
}
