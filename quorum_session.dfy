/** The quorum-verification session of vault/verify.go as a value, and one
    step function per operation: the specification that the imperative
    class in QuorumCore is proved against. */
module QuorumSession {
  import opened QuorumTypes

  /** The two `Core` fields the session lives in. `config == None` is Idle. */
  datatype Session = Session(config: Option<VerifyQuorumConfig>, progress: seq<Share>)

  /** No session and no shares: the zero value of the two fields. */
  const Idle := Session(None, [])

  /** The new session and what the operation returned. */
  datatype Step<T> = Step(next: Session, out: T)

  predicate NoDuplicates(shares: seq<Share>) {
    forall i, j :: 0 <= i < j < |shares| ==> shares[i] != shares[j]
  }

  /** The session invariant: no shares without a session, and no share twice. */
  predicate Valid(s: Session) {
    (s.config.None? ==> s.progress == []) && NoDuplicates(s.progress)
  }

  /** The seal/standby gate of Progress, Configuration and Cancel. */
  function SealGate(h: Host): (r: Option<Error>)
    ensures r == None <==> (!h.sealed && !h.standby) || h.recoveryMode
    ensures r == Some(Sealed) <==> h.sealed && !h.recoveryMode
    ensures r == Some(Standby) <==> !h.sealed && h.standby && !h.recoveryMode
  {
    if h.sealed && !h.recoveryMode then Some(Sealed)
    else if h.standby && !h.recoveryMode then Some(Standby)
    else None
  }

  /** The gate of Init and Update: the seal/standby gate with the barrier's
      own seal status checked between its two halves. */
  function BarrierGate(h: Host): (r: Option<Error>)
    ensures r == None <==>
      SealGate(h) == None && h.barrierSealed.Some? && (h.barrierSealed.value || !h.recoveryMode)
    ensures SealGate(h) == Some(Sealed) ==> r == Some(Sealed)
    ensures !(h.sealed && !h.recoveryMode) && h.barrierSealed.None? ==> r == Some(BarrierStatusUnknown)
    ensures !(h.sealed && !h.recoveryMode) && h.barrierSealed == Some(false) && h.recoveryMode ==>
      r == Some(AlreadyUnsealed)
    ensures !h.sealed && h.standby && !h.recoveryMode && h.barrierSealed.Some? ==> r == Some(Standby)
    ensures r.Some? ==> r.value in {Sealed, Standby, BarrierStatusUnknown, AlreadyUnsealed}
  {
    if h.sealed && !h.recoveryMode then Some(Sealed)
    else if h.barrierSealed.None? then Some(BarrierStatusUnknown)
    else if !h.barrierSealed.value && h.recoveryMode then Some(AlreadyUnsealed)
    else if h.standby && !h.recoveryMode then Some(Standby)
    else None
  }

  /** A share is accepted only when min <= |key| <= max + ShareOverhead. */
  function KeyLengthCheck(h: Host, key: Share): (r: Option<Error>)
    ensures r == None <==> h.keyMin <= |key| <= h.keyMax + h.shareOverhead
    ensures r.Some? ==> r.value.IsInvalidKey()
    ensures r.Some? && |key| < h.keyMin ==> r.value == KeyTooShort(h.keyMin)
    ensures r.Some? && |key| >= h.keyMin ==> r.value == KeyTooLong(h.keyMax + h.shareOverhead)
  {
    var max := h.keyMax + h.shareOverhead;
    if |key| < h.keyMin then Some(KeyTooShort(h.keyMin))
    else if |key| > max then Some(KeyTooLong(max))
    else None
  }

  /** The seal configuration Update works with: the recovery configuration
      when the seal supports recovery keys, the barrier configuration
      otherwise; a missing one means the host is not initialised. */
  function LookupSealConfig(h: Host): (r: Result<SealConfig>)
    ensures r.Ok? && h.recoveryKeySupported ==> h.recoveryConfig == Fetched(Some(r.value))
    ensures r.Ok? && !h.recoveryKeySupported ==> h.barrierConfig == Fetched(Some(r.value))
    ensures r == Err(SealConfigUnavailable) <==>
      (if h.recoveryKeySupported then h.recoveryConfig else h.barrierConfig) == FetchFailed
    ensures r == Err(NotInitialized) <==>
      (if h.recoveryKeySupported then h.recoveryConfig else h.barrierConfig) == Fetched(None)
    ensures r.Err? ==> r.error in {SealConfigUnavailable, NotInitialized}
  {
    var fetch := if h.recoveryKeySupported then h.recoveryConfig else h.barrierConfig;
    match fetch
    case FetchFailed => Err(SealConfigUnavailable)
    case Fetched(None) => Err(NotInitialized)
    case Fetched(Some(cfg)) => Ok(cfg)
  }

  /** VerifyQuorumInit. */
  function InitStep(s: Session, h: Host, generated: Option<string>): (r: Step<Outcome>)
    ensures r.next.progress == s.progress
    ensures r.out.Fail? ==> r.next == s
    ensures BarrierGate(h).Some? ==> r.out == Fail(BarrierGate(h).value)
    ensures BarrierGate(h).None? && s.config.Some? ==> r.out == Fail(AlreadyInProgress)
    ensures BarrierGate(h).None? && s.config.None? && generated.None? ==>
      r == Step(s, Fail(NonceGenerationFailed))
    ensures r.out.Pass? <==> BarrierGate(h).None? && s.config.None? && generated.Some?
    ensures r.out.Pass? ==> r.next.config == Some(VerifyQuorumConfig(generated.value))
    ensures Valid(s) ==> Valid(r.next)
  {
    if BarrierGate(h).Some? then Step(s, Fail(BarrierGate(h).value))
    else if s.config.Some? then Step(s, Fail(AlreadyInProgress))
    else match generated
      case None => Step(s, Fail(NonceGenerationFailed))
      case Some(nonce) => Step(Session(Some(VerifyQuorumConfig(nonce)), s.progress), Pass)
  }

  /** The key the threshold step reconstructs: with threshold 1 the first
      stored share itself, otherwise whatever Combine makes of all of them. */
  function CombinedKey(c: Crypto, shares: seq<Share>, threshold: int): (r: Option<seq<Byte>>)
    requires shares != []
    ensures threshold == 1 ==> r == Some(shares[0])
    ensures threshold != 1 ==> r == c.combine(shares)
  {
    if threshold == 1 then Some(shares[0]) else c.combine(shares)
  }

  /** The combine, unseal and verify calls all succeed on `shares`. */
  predicate FinalStepSucceeds(c: Crypto, shares: seq<Share>, t: int)
    requires shares != []
  {
    var key := CombinedKey(c, shares, t);
    key.Some? && c.unsealToRoot(key.value).Some? && c.verifyRoot(c.unsealToRoot(key.value).value)
  }

  /** Every check of VerifyQuorumUpdate before the append passes: the key
      length, a seal configuration with threshold `t`, the gate, the
      session's nonce, and a share not yet stored. */
  predicate PassesChecks(s: Session, h: Host, key: Share, nonce: string, t: int) {
    KeyLengthCheck(h, key).None? && LookupSealConfig(h) == Ok(SealConfig(t)) &&
    BarrierGate(h).None? && s.config == Some(VerifyQuorumConfig(nonce)) && key !in s.progress
  }

  /** The threshold step of VerifyQuorumUpdate. The share list is emptied
      before anything can fail; only full success also drops the nonce. */
  function Finalize(c: Crypto, config: Option<VerifyQuorumConfig>, shares: seq<Share>, threshold: int)
    : (r: Step<Result<VerifyQuorumResult>>)
    requires config.Some? && shares != []
    ensures r.next.progress == []
    ensures r.out.Ok? <==> r.next.config.None?
    ensures r.out.Err? ==> r.next.config == config && r.out.error.IsFinalStepError()
    ensures r.out.Ok? ==> r.out.value == VerifyQuorumResult(|shares|, threshold)
    ensures r.out.Ok? <==> FinalStepSucceeds(c, shares, threshold)
    // each failing call has its own error
    ensures CombinedKey(c, shares, threshold).None? ==> r.out == Err(CombineFailed)
    ensures var k := CombinedKey(c, shares, threshold);
      k.Some? && c.unsealToRoot(k.value).None? ==> r.out == Err(AuthenticationFailed)
    ensures var k := CombinedKey(c, shares, threshold);
      k.Some? && c.unsealToRoot(k.value).Some? && !c.verifyRoot(c.unsealToRoot(k.value).value) ==>
      r.out == Err(RootVerificationFailed)
  {
    var kept := Session(config, []);
    match CombinedKey(c, shares, threshold)
    case None => Step(kept, Err(CombineFailed))
    case Some(key) =>
      match c.unsealToRoot(key)
      case None => Step(kept, Err(AuthenticationFailed))
      case Some(root) =>
        if !c.verifyRoot(root) then Step(kept, Err(RootVerificationFailed))
        else Step(Idle, Ok(VerifyQuorumResult(|shares|, threshold)))
  }

  /** VerifyQuorumUpdate: the checks in the source's order, then append, then
      either report progress or finalise. */
  function UpdateStep(s: Session, h: Host, c: Crypto, key: Share, nonce: string)
    : (r: Step<Result<VerifyQuorumResult>>)
    // the key-length check comes first of all
    ensures KeyLengthCheck(h, key).Some? ==> r == Step(s, Err(KeyLengthCheck(h, key).value))
    // every failure before the threshold leaves the session as it was
    ensures r.out.Err? && !r.out.error.IsFinalStepError() ==> r.next == s
    // a failure at the threshold keeps the nonce and loses every share
    ensures r.out.Err? && r.out.error.IsFinalStepError() ==>
      s.config.Some? && r.next == Session(s.config, [])
    // no session or another session's nonce: refused
    ensures s.config.None? || s.config.value.nonce != nonce ==> r.out.Err? && r.next == s
    // a share already stored is refused
    ensures key in s.progress ==> r.out.Err? && r.next == s
    // below the threshold: exactly this share is appended
    ensures r.out.Ok? && r.next.config.Some? ==>
      r.next == Session(s.config, s.progress + [key]) &&
      LookupSealConfig(h).Ok? &&
      r.out.value == VerifyQuorumResult(|s.progress| + 1, LookupSealConfig(h).value.secretThreshold) &&
      r.out.value.progress < r.out.value.required
    // at the threshold, success ends the session
    ensures r.out.Ok? && r.next.config.None? ==>
      r.next == Idle && s.config.Some? &&
      LookupSealConfig(h).Ok? &&
      r.out.value == VerifyQuorumResult(|s.progress| + 1, LookupSealConfig(h).value.secretThreshold) &&
      r.out.value.progress >= r.out.value.required
    // the remaining checks, in order, each with its own error
    ensures KeyLengthCheck(h, key).None? && LookupSealConfig(h).Err? ==>
      r == Step(s, Err(LookupSealConfig(h).error))
    ensures KeyLengthCheck(h, key).None? && LookupSealConfig(h).Ok? && BarrierGate(h).Some? ==>
      r == Step(s, Err(BarrierGate(h).value))
    ensures (KeyLengthCheck(h, key).None? && LookupSealConfig(h).Ok? && BarrierGate(h).None? &&
             s.config.None?) ==>
      r == Step(s, Err(NotInProgress))
    ensures (KeyLengthCheck(h, key).None? && LookupSealConfig(h).Ok? && BarrierGate(h).None? &&
             s.config.Some? && s.config.value.nonce != nonce) ==>
      r == Step(s, Err(IncorrectNonce(s.config.value.nonce)))
    ensures (KeyLengthCheck(h, key).None? && LookupSealConfig(h).Ok? && BarrierGate(h).None? &&
             s.config == Some(VerifyQuorumConfig(nonce)) && key in s.progress) ==>
      r == Step(s, Err(DuplicateShare))
    // an admissible share below the threshold is accepted
    ensures forall t :: PassesChecks(s, h, key, nonce, t) && |s.progress| + 1 < t ==>
      r == Step(Session(s.config, s.progress + [key]), Ok(VerifyQuorumResult(|s.progress| + 1, t)))
    // an admissible share reaching the threshold empties the list whatever the
    // crypto does; it succeeds exactly when combine, unseal and verify all do,
    // and a failure keeps the nonce
    ensures forall t :: PassesChecks(s, h, key, nonce, t) && |s.progress| + 1 >= t ==>
      r.next.progress == [] &&
      (r.out.Ok? <==> FinalStepSucceeds(c, s.progress + [key], t)) &&
      (r.out.Ok? ==> r == Step(Idle, Ok(VerifyQuorumResult(|s.progress| + 1, t)))) &&
      (r.out.Err? ==> r.next.config == s.config && r.out.error.IsFinalStepError())
    // ... and each failing call there has its own error
    ensures forall t :: PassesChecks(s, h, key, nonce, t) && |s.progress| + 1 >= t ==>
      var k := CombinedKey(c, s.progress + [key], t);
      (k.None? ==> r.out == Err(CombineFailed)) &&
      (k.Some? && c.unsealToRoot(k.value).None? ==> r.out == Err(AuthenticationFailed)) &&
      (k.Some? && c.unsealToRoot(k.value).Some? && !c.verifyRoot(c.unsealToRoot(k.value).value) ==>
         r.out == Err(RootVerificationFailed))
    ensures Valid(s) ==> Valid(r.next)
  {
    if KeyLengthCheck(h, key).Some? then Step(s, Err(KeyLengthCheck(h, key).value))
    else if LookupSealConfig(h).Err? then Step(s, Err(LookupSealConfig(h).error))
    else if BarrierGate(h).Some? then Step(s, Err(BarrierGate(h).value))
    else if s.config.None? then Step(s, Err(NotInProgress))
    else if nonce != s.config.value.nonce then Step(s, Err(IncorrectNonce(s.config.value.nonce)))
    else if key in s.progress then Step(s, Err(DuplicateShare))
    else
      var shares := s.progress + [key];
      var threshold := LookupSealConfig(h).value.secretThreshold;
      if |shares| < threshold then
        Step(Session(s.config, shares), Ok(VerifyQuorumResult(|shares|, threshold)))
      else
        Finalize(c, s.config, shares, threshold)
  }

  /** VerifyQuorumCancel: clears everything once the gate lets it through. */
  function CancelStep(s: Session, h: Host): (r: Step<Outcome>)
    ensures SealGate(h).Some? ==> r == Step(s, Fail(SealGate(h).value))
    ensures SealGate(h).None? ==> r == Step(Idle, Pass)
  {
    match SealGate(h)
    case Some(e) => Step(s, Fail(e))
    case None => Step(Idle, Pass)
  }

  /** VerifyQuorumProgress: the number of shares stored. */
  function ProgressRead(s: Session, h: Host): (r: Result<int>)
    ensures r.Err? <==> SealGate(h).Some?
    ensures r.Err? ==> r.error == SealGate(h).value
    ensures r.Ok? ==> r.value == |s.progress|
  {
    match SealGate(h)
    case Some(e) => Err(e)
    case None => Ok(|s.progress|)
  }

  /** VerifyQuorumConfiguration: the current session configuration, if any. */
  function ConfigurationRead(s: Session, h: Host): (r: Result<Option<VerifyQuorumConfig>>)
    ensures r.Err? <==> SealGate(h).Some?
    ensures r.Err? ==> r.error == SealGate(h).value
    ensures r.Ok? ==> r.value == s.config
  {
    match SealGate(h)
    case Some(e) => Err(e)
    case None => Ok(s.config)
  }
}
