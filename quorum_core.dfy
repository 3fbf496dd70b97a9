/** The `Core` of vault/verify.go, reduced to the two fields the
    quorum-verification session keeps, with the five operations as methods
    that update those fields in place. Each method is proved to do exactly
    what the matching step function of QuorumSession specifies. */
module QuorumCore {
  import opened QuorumTypes
  import opened QuorumSession

  /** The duplicate scan of VerifyQuorumUpdate: walks the stored shares and
      stops at the first one byte-equal to `key`. */
  method FindShare(shares: seq<Share>, key: Share) returns (found: bool)
    ensures found <==> key in shares
  {
    var i := 0;
    while i < |shares|
      invariant 0 <= i <= |shares|
      invariant key !in shares[..i]
    {
      if shares[i] == key {
        return true;
      }
      assert shares[..i + 1] == shares[..i] + [shares[i]];
      i := i + 1;
    }
    assert shares[..i] == shares;
    return false;
  }

  class Core {
    var verifyQuorumConfig: Option<VerifyQuorumConfig>
    var verifyQuorumProgress: seq<Share>

    /** The session the two fields hold. */
    function State(): Session
      reads this
    {
      Session(verifyQuorumConfig, verifyQuorumProgress)
    }

    /** A fresh core starts with no session and no shares. */
    constructor ()
      ensures State() == Idle
    {
      verifyQuorumConfig := None;
      verifyQuorumProgress := [];
    }

    method VerifyQuorumProgress(h: Host) returns (r: Result<int>)
      ensures r == ProgressRead(State(), h)
    {
      if h.sealed && !h.recoveryMode {
        return Err(Sealed);
      }
      if h.standby && !h.recoveryMode {
        return Err(Standby);
      }
      return Ok(|verifyQuorumProgress|);
    }

    method VerifyQuorumConfiguration(h: Host) returns (r: Result<Option<VerifyQuorumConfig>>)
      ensures r == ConfigurationRead(State(), h)
    {
      if h.sealed && !h.recoveryMode {
        return Err(Sealed);
      }
      if h.standby && !h.recoveryMode {
        return Err(Standby);
      }
      return Ok(verifyQuorumConfig);
    }

    /** `generated` is what the UUID generator produced (None: it failed). */
    method VerifyQuorumInit(h: Host, generated: Option<string>) returns (r: Outcome)
      modifies this
      ensures Step(State(), r) == InitStep(old(State()), h, generated)
      ensures old(Valid(State())) ==> Valid(State())
    {
      if h.sealed && !h.recoveryMode {
        return Fail(Sealed);
      }
      if h.barrierSealed.None? {
        return Fail(BarrierStatusUnknown);
      }
      if !h.barrierSealed.value && h.recoveryMode {
        return Fail(AlreadyUnsealed);
      }
      if h.standby && !h.recoveryMode {
        return Fail(Standby);
      }
      if verifyQuorumConfig.Some? {
        return Fail(AlreadyInProgress);
      }
      if generated.None? {
        return Fail(NonceGenerationFailed);
      }
      verifyQuorumConfig := Some(VerifyQuorumConfig(generated.value));
      return Pass;
    }

    method VerifyQuorumUpdate(h: Host, c: Crypto, key: Share, nonce: string)
      returns (r: Result<VerifyQuorumResult>)
      modifies this
      ensures Step(State(), r) == UpdateStep(old(State()), h, c, key, nonce)
      ensures old(Valid(State())) ==> Valid(State())
    {
      // the key length
      var min, max := h.keyMin, h.keyMax;
      max := max + h.shareOverhead;
      if |key| < min {
        return Err(KeyTooShort(min));
      }
      if |key| > max {
        return Err(KeyTooLong(max));
      }

      // the seal configuration
      var fetch := if h.recoveryKeySupported then h.recoveryConfig else h.barrierConfig;
      if fetch.FetchFailed? {
        return Err(SealConfigUnavailable);
      }
      if fetch.config.None? {
        return Err(NotInitialized);
      }
      var config := fetch.config.value;

      // the seal, barrier and standby status
      if h.sealed && !h.recoveryMode {
        return Err(Sealed);
      }
      if h.barrierSealed.None? {
        return Err(BarrierStatusUnknown);
      }
      if !h.barrierSealed.value && h.recoveryMode {
        return Err(AlreadyUnsealed);
      }
      if h.standby && !h.recoveryMode {
        return Err(Standby);
      }

      // the session and its nonce
      if verifyQuorumConfig.None? {
        return Err(NotInProgress);
      }
      if nonce != verifyQuorumConfig.value.nonce {
        return Err(IncorrectNonce(verifyQuorumConfig.value.nonce));
      }
      var duplicate := FindShare(verifyQuorumProgress, key);
      if duplicate {
        return Err(DuplicateShare);
      }

      verifyQuorumProgress := verifyQuorumProgress + [key];
      var progress := |verifyQuorumProgress|;
      if progress < config.secretThreshold {
        return Ok(VerifyQuorumResult(progress, config.secretThreshold));
      }

      // the threshold is reached: the shares are consumed whatever happens next
      var combinedKey;
      if config.secretThreshold == 1 {
        combinedKey := verifyQuorumProgress[0];
        verifyQuorumProgress := [];
      } else {
        var combined := c.combine(verifyQuorumProgress);
        verifyQuorumProgress := [];
        if combined.None? {
          return Err(CombineFailed);
        }
        combinedKey := combined.value;
      }

      var root := c.unsealToRoot(combinedKey);
      if root.None? {
        return Err(AuthenticationFailed);
      }
      if !c.verifyRoot(root.value) {
        return Err(RootVerificationFailed);
      }

      r := Ok(VerifyQuorumResult(progress, config.secretThreshold));
      verifyQuorumProgress := [];
      verifyQuorumConfig := None;
    }

    method VerifyQuorumCancel(h: Host) returns (r: Outcome)
      modifies this
      ensures Step(State(), r) == CancelStep(old(State()), h)
      ensures old(Valid(State())) ==> Valid(State())
    {
      if h.sealed && !h.recoveryMode {
        return Fail(Sealed);
      }
      if h.standby && !h.recoveryMode {
        return Fail(Standby);
      }
      verifyQuorumConfig := None;
      verifyQuorumProgress := [];
      return Pass;
    }
  }
}
