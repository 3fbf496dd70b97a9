/** Values shared by the quorum-verification session (vault/verify.go):
    the session's own records, the error taxonomy, and the host services
    the session consults but does not own. */
module QuorumTypes {

  type Byte = bv8

  /** One key share as submitted by an operator: raw bytes. */
  type Share = seq<Byte>

  datatype Option<+T> = None | Some(value: T)

  /** `VerifyQuorumConfig`: present exactly while a verification is in progress. */
  datatype VerifyQuorumConfig = VerifyQuorumConfig(nonce: string)

  /** `VerifyQuorumResult`: what a successful update reports. */
  datatype VerifyQuorumResult = VerifyQuorumResult(progress: int, required: int)

  /** The one field of the host's seal configuration that the session reads. */
  datatype SealConfig = SealConfig(secretThreshold: int)

  /** Outcome of asking the seal for its (recovery or barrier) configuration:
      the call may fail, or succeed with no configuration (host not initialised). */
  datatype ConfigFetch = FetchFailed | Fetched(config: Option<SealConfig>)

  /** Every way an operation of the session can fail. */
  datatype Error =
    | KeyTooShort(min: int)            // ErrInvalidKey, key shorter than the minimum
    | KeyTooLong(max: int)             // ErrInvalidKey, key longer than maximum + share overhead
    | SealConfigUnavailable            // the seal could not return its configuration
    | NotInitialized                   // ErrNotInit: no seal configuration yet
    | Sealed                           // consts.ErrSealed
    | Standby                          // consts.ErrStandby
    | BarrierStatusUnknown             // barrier.Sealed() returned an error
    | AlreadyUnsealed                  // recovery mode, but the barrier is unsealed
    | AlreadyInProgress                // Init while a session exists
    | NonceGenerationFailed            // the UUID generator failed
    | NotInProgress                    // Update with no session
    | IncorrectNonce(expected: string) // Update with another session's nonce
    | DuplicateShare                   // Update with a share already stored
    | CombineFailed                    // shamir.Combine failed
    | AuthenticationFailed             // unsealKeyToRootKeyPostUnseal failed
    | RootVerificationFailed           // barrier.VerifyRoot failed
  {
    /** The `ErrInvalidKey` type of the source. */
    predicate IsInvalidKey() { KeyTooShort? || KeyTooLong? }

    /** Failures raised after the share list was consumed at the threshold. */
    predicate IsFinalStepError() {
      CombineFailed? || AuthenticationFailed? || RootVerificationFailed?
    }
  }

  datatype Result<+T> = Ok(value: T) | Err(error: Error)

  /** The result of an operation that returns only an error or nil. */
  datatype Outcome = Pass | Fail(error: Error)

  /** The host state and services the session reads but does not own. */
  datatype Host = Host(
    sealed: bool,                  // c.Sealed()
    standby: bool,                 // c.standby
    recoveryMode: bool,            // c.recoveryMode
    barrierSealed: Option<bool>,   // c.barrier.Sealed(); None when it returns an error
    keyMin: int,                   // first result of c.barrier.KeyLength()
    keyMax: int,                   // second result of c.barrier.KeyLength()
    shareOverhead: int,            // shamir.ShareOverhead
    recoveryKeySupported: bool,    // c.seal.RecoveryKeySupported()
    recoveryConfig: ConfigFetch,   // c.seal.RecoveryConfig(ctx)
    barrierConfig: ConfigFetch     // c.seal.BarrierConfig(ctx)
  )

  /** The cryptographic primitives, each of which may fail. */
  datatype Crypto = Crypto(
    combine: seq<Share> -> Option<seq<Byte>>,     // shamir.Combine
    unsealToRoot: seq<Byte> -> Option<seq<Byte>>, // c.unsealKeyToRootKeyPostUnseal
    verifyRoot: seq<Byte> -> bool                 // c.barrier.VerifyRoot succeeds
  )
}
