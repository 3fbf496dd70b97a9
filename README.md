# Quorum verification session (Vault `verify.go`) in Dafny

This project models the quorum-verification session of Vault's `Core`.
Operators use the session to rehearse an unseal. They submit key shares one
at a time under a session nonce. Once the seal's secret threshold is
reached, the shares are combined and the resulting root key is checked. The
host's seal state never changes.

The session lives in two fields of `Core`:

- `verifyQuorumConfig`: absent when no verification is in progress, otherwise
  it holds the nonce;
- `verifyQuorumProgress`: the shares submitted so far, in submission order.

Files:

- `quorum_types.dfy` (module `QuorumTypes`): the source's records
  (`VerifyQuorumConfig`, `VerifyQuorumResult`), the error taxonomy, and two
  datatypes for the collaborators the session consults but does not own.
  `Host` holds the sealed/standby/recovery flags, the barrier's seal status,
  the key-length bounds, `ShareOverhead` and the seal-configuration fetches.
  `Crypto` holds Combine, the post-unseal root derivation and root
  verification, each of which may fail.
- `quorum_session.dfy` (module `QuorumSession`): the session as a value
  (`Session`), its invariant `Valid`, and one step function per operation.
  Each step function returns the new session and the operation's result. It
  also states in its `ensures` what that operation promises.
- `quorum_core.dfy` (module `QuorumCore`): class `Core`, which holds the two
  fields. Three of its methods (Init, Update, Cancel) update the fields in
  place, and two (the progress and configuration reads) only read them. All
  five follow the source's order of checks and early returns. Each method
  is proved equal to its step function and to preserve `Valid`.
  `FindShare` is the duplicate-scan loop.
- `quorum_properties.dfy` (module `QuorumProperties`): runs of arbitrary call
  sequences (`Run`) and the lemmas that relate several calls. These cover the
  invariant over every reachable session, the progress count of a run of
  accepted shares, the fixed-threshold bound, a whole successful
  verification, the sealed host, and two worked scenarios.

The host's flags, the UUID generator's output and the crypto primitives are
parameters of each operation. The Go code reads them from `Core`, its barrier
and its seal.

Behaviour of `verify.go` worth knowing, all of which the model keeps:

- The progress read returns only the share count. The configuration read
  returns only the session configuration. Neither reports a required count.
- Init and Update also check the barrier's own seal status:
  - an error reading it fails the call;
  - in recovery mode, an unsealed barrier fails the call.
- Update checks the key length and the seal configuration before the seal
  status. So on a sealed host, Update with a bad key reports the key error
  rather than `Sealed`.
- At threshold 1 the key is the first stored share (`progress[0]`). This is
  the submitted share whenever the threshold did not change during the
  session.
- A failure in Combine, root derivation or root verification clears the
  shares but keeps the nonce. The session stays active with no shares, and
  a new Init is refused until Cancel. The model keeps this behaviour
  (`FailedFinalStepKeepsNonce`).

## Model

| member | source | states |
|---|---|---|
| QuorumSession.SealGate | vault/verify.go:30-37 | the gate of the reads and Cancel: it passes exactly when the host is in recovery mode or is neither sealed nor standby; it gives `Sealed` for sealed outside recovery mode, and otherwise `Standby` for standby outside recovery mode |
| QuorumSession.BarrierGate | vault/verify.go:136-152 | the gate of Init and Update passes exactly when the seal/standby gate passes, the barrier status is readable, and the barrier is sealed or the host is outside recovery mode; failures are reported in the source's order: `Sealed` for sealed outside recovery mode, then `BarrierStatusUnknown` when the barrier status cannot be read, then `AlreadyUnsealed` for an unsealed barrier in recovery mode, then `Standby` for standby outside recovery mode |
| QuorumSession.KeyLengthCheck | vault/verify.go:105-113 | a share is accepted iff `min <= len <= max + ShareOverhead`; otherwise `KeyTooShort(min)` below the minimum and `KeyTooLong(max + ShareOverhead)` above it, both of the invalid-key kind |
| QuorumSession.LookupSealConfig | vault/verify.go:115-133 | a returned configuration is the recovery configuration when recovery keys are supported and the barrier configuration otherwise; the result is `SealConfigUnavailable` exactly when the chosen fetch fails and `NotInitialized` exactly when it returns no configuration; no other error is possible |
| QuorumSession.InitStep | vault/verify.go:63-101 | Init never changes the shares; any failure leaves the session unchanged; a failed gate is reported first, then `AlreadyInProgress` when a session exists, then `NonceGenerationFailed` when the nonce generator fails; it succeeds iff the gate passes, no session exists and a nonce was generated, and then the session holds that nonce; it preserves `Valid` |
| QuorumSession.CombinedKey | vault/verify.go:188-199 | at threshold 1 the candidate key is the first stored share and Combine is not consulted; at any other threshold it is Combine's result over all stored shares |
| QuorumSession.Finalize | vault/verify.go:188-223 | at the threshold the share list is always emptied; the call succeeds iff `FinalStepSucceeds`, i.e. the combined key exists, derives a root and that root verifies; on success the session is Idle and the result is `{len(shares), threshold}`; on failure the nonce is kept and the error names the failing call: `CombineFailed` when Combine fails, `AuthenticationFailed` when the root derivation fails, `RootVerificationFailed` when the derived root does not verify |
| QuorumSession.UpdateStep | vault/verify.go:104-224 | the checks run in the source's order, and each gives its own error, with no change, when all earlier ones pass: key length, seal configuration, gate, `NotInProgress`, `IncorrectNonce` naming the session's nonce, then `DuplicateShare`; a share that passes every check below the threshold is accepted, appended at the end, and reported as `{old len + 1, threshold}`; a share that passes every check and reaches the threshold always empties the list; it succeeds exactly when combine, unseal and verify all succeed, and then leaves Idle with `{old len + 1, threshold}`; otherwise it keeps the nonce and fails with the error of the failing call (`CombineFailed`, `AuthenticationFailed` or `RootVerificationFailed`); it preserves `Valid` |
| QuorumSession.CancelStep | vault/verify.go:227-244 | when the gate fails, Cancel reports that error and changes nothing; otherwise it clears both the nonce and the shares and succeeds |
| QuorumSession.ProgressRead | vault/verify.go:29-43 | fails iff the seal/standby gate fails, with the gate's error; otherwise returns the number of stored shares |
| QuorumSession.ConfigurationRead | vault/verify.go:46-60 | fails iff the seal/standby gate fails, with the gate's error; otherwise returns the current session configuration |
| QuorumCore.FindShare | vault/verify.go:166-171 | the scan over the stored shares reports a hit iff the key is byte-equal to one of them |
| QuorumCore.Core.VerifyQuorumProgress | vault/verify.go:29-43 | the guarded count read returns what `ProgressRead` specifies for the current fields |
| QuorumCore.Core.VerifyQuorumConfiguration | vault/verify.go:46-60 | the guarded configuration read returns what `ConfigurationRead` specifies for the current fields |
| QuorumCore.Core.VerifyQuorumInit | vault/verify.go:63-101 | the new fields and the returned error are those of `InitStep` from the old fields; `Valid` is preserved |
| QuorumCore.Core.VerifyQuorumUpdate | vault/verify.go:104-224 | the new fields and the returned result are those of `UpdateStep` from the old fields, with the duplicate check done by the `FindShare` loop; `Valid` is preserved |
| QuorumCore.Core.VerifyQuorumCancel | vault/verify.go:227-244 | the new fields and the returned error are those of `CancelStep` from the old fields |
| QuorumProperties.RunPreservesValid | vault/verify.go:158-174 | over any sequence of calls, with any host state and inputs, a valid session stays valid: no shares without a nonce, and no share stored twice |
| QuorumProperties.ReachableIsValid | vault/verify.go:240-243 | every session reachable from the zero-valued fields satisfies the invariant |
| QuorumProperties.RunRespectsThreshold | vault/verify.go:174-186 | while the threshold stays `t`, fewer than `t` shares are ever stored, and every accepted update reports `1 <= progress <= required == t` |
| QuorumProperties.CompletionReportsThreshold | vault/verify.go:214-217 | when fewer than `t` shares were stored and the threshold is `t`, a completing update reports exactly `{t, t}` |
| QuorumProperties.AcceptedSharesCount | vault/verify.go:173-186 | submitting distinct admissible shares below the threshold stores them in submission order, and the k-th submission reports progress `old len + k` with the threshold as the requirement |
| QuorumProperties.QuorumVerified | vault/verify.go:173-223 | Init followed by exactly `t` distinct admissible shares whose combination verifies: the i-th update reports `{i, t}`, and the session ends Idle |
| QuorumProperties.InitWhileActiveRefused | vault/verify.go:83-86 | Init while a session exists fails with `AlreadyInProgress` and leaves the nonce and the shares untouched |
| QuorumProperties.DuplicateRefusedAnywhere | vault/verify.go:166-171 | resubmitting the share at any position of the list fails with `DuplicateShare` and changes nothing |
| QuorumProperties.WrongNonceRefused | vault/verify.go:162-164 | a nonce other than the session's fails with `IncorrectNonce` naming the session's nonce, and changes nothing |
| QuorumProperties.ThresholdOneSkipsCombine | vault/verify.go:190-192 | at threshold 1 the outcome of Update does not depend on Combine at all |
| QuorumProperties.CancelIdempotent | vault/verify.go:240-243 | Cancel twice has the same effect and result as Cancel once; after a successful Cancel the reads show 0 shares and no session |
| QuorumProperties.SealedHostChangesNothing | vault/verify.go:105-140 | on a host sealed outside recovery mode, no sequence of calls changes the session. Every call fails with `Sealed`, except Update, which may first fail on the key length or the seal configuration |
| QuorumProperties.ThresholdThreeScenario | vault/verify.go:173-223 | threshold 3: the updates A, B, A, C report `{1,3}`, `{2,3}`, `DuplicateShare`, `{3,3}`; the session then ends Idle and the reads show 0 and no session |
| QuorumProperties.ThresholdOneScenario | vault/verify.go:188-192 | threshold 1: Init then one update completes at once with `{1,1}` and leaves the session Idle |
| QuorumProperties.FailedFinalStepKeepsNonce | vault/verify.go:192-210 | when a share that passes every check reaches the threshold and Combine, root derivation or root verification fails, Update fails with a final-step error, the session keeps the caller's nonce with no shares, and a new Init is refused with `AlreadyInProgress` |

## Left out

- Locking: `stateLock` and `verifyQuorumLock` only serialise access. Each operation is modelled as one atomic step.
- Logging and `memzero`: they have no effect on the session's state or results.
- Cryptography: `shamir.Combine`, `unsealKeyToRootKeyPostUnseal` and `barrier.VerifyRoot` are opaque functions in `Crypto`, and each may fail. Their correctness is not modelled.
- UUID generation: the generator's output is an input to Init. That nonces are unique across sessions is therefore not modelled.
- The seal configuration: only `SecretThreshold` is modelled. The fetch is an input that may fail or be empty. The `ctx` argument is left out.
- Error texts: each error is a constructor of `Error`. Only the data the texts carry is kept: the bound in the key-length errors and the session nonce in the nonce error.
- QuorumSession.KeyLengthCheck: `max + ShareOverhead` uses unbounded integers, so overflow of Go's `int` is not modelled. Real key bounds are small.
- The CLI command (command/operator_verify.go), the HTTP handlers (http/sys_verify.go) and the API client (api/sys_verify.go): these only marshal data and map status codes.
