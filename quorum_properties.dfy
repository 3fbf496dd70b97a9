/** Properties of the quorum-verification session that relate several
    operations: runs of arbitrary operation sequences, the progress count
    of a run of accepted shares, and the worked scenarios. */
module QuorumProperties {
  import opened QuorumTypes
  import opened QuorumSession

  /** One call into the session, with the host state and inputs it sees. */
  datatype Op =
    | Init(h: Host, generated: Option<string>)
    | Update(h: Host, c: Crypto, key: Share, nonce: string)
    | Cancel(h: Host)
    | ReadProgress(h: Host)
    | ReadConfiguration(h: Host)

  /** What one call returned. */
  datatype Reply =
    | InitReply(outcome: Outcome)
    | UpdateReply(result: Result<VerifyQuorumResult>)
    | CancelReply(outcome: Outcome)
    | ProgressReply(count: Result<int>)
    | ConfigurationReply(config: Result<Option<VerifyQuorumConfig>>)

  function Apply(s: Session, op: Op): Step<Reply> {
    match op
    case Init(h, generated) =>
      var r := InitStep(s, h, generated); Step(r.next, InitReply(r.out))
    case Update(h, c, key, nonce) =>
      var r := UpdateStep(s, h, c, key, nonce); Step(r.next, UpdateReply(r.out))
    case Cancel(h) =>
      var r := CancelStep(s, h); Step(r.next, CancelReply(r.out))
    case ReadProgress(h) => Step(s, ProgressReply(ProgressRead(s, h)))
    case ReadConfiguration(h) => Step(s, ConfigurationReply(ConfigurationRead(s, h)))
  }

  /** The calls of `ops`, one after the other, starting from `s`. */
  function Run(s: Session, ops: seq<Op>): (r: Step<seq<Reply>>)
    ensures |r.out| == |ops|
    decreases |ops|
  {
    if ops == [] then Step(s, [])
    else
      var first := Apply(s, ops[0]);
      var rest := Run(first.next, ops[1..]);
      Step(rest.next, [first.out] + rest.out)
  }

  /** Whatever the calls and whatever the host says, a session that starts
      valid stays valid: no shares without a nonce, no share stored twice. */
  lemma {:induction false} RunPreservesValid(s: Session, ops: seq<Op>)
    requires Valid(s)
    ensures Valid(Run(s, ops).next)
    decreases |ops|
  {
    if ops != [] {
      RunPreservesValid(Apply(s, ops[0]).next, ops[1..]);
    }
  }

  /** Every session the process can reach from startup is valid. */
  lemma ReachableIsValid(ops: seq<Op>)
    ensures Valid(Run(Idle, ops).next)
  {
    RunPreservesValid(Idle, ops);
  }

  /** The call reads a seal configuration with threshold `t`, if any. */
  predicate ThresholdIs(op: Op, t: int) {
    op.Update? ==> (LookupSealConfig(op.h).Ok? ==> LookupSealConfig(op.h).value.secretThreshold == t)
  }

  /** While the threshold stays `t`, fewer than `t` shares are ever stored,
      and every accepted share reports a progress of at most `t`, with `t`
      as the requirement. */
  lemma {:induction false} RunRespectsThreshold(s: Session, ops: seq<Op>, t: int)
    requires |s.progress| < t
    requires forall i :: 0 <= i < |ops| ==> ThresholdIs(ops[i], t)
    ensures |Run(s, ops).next.progress| < t
    ensures forall i :: 0 <= i < |ops| && Run(s, ops).out[i].UpdateReply? && Run(s, ops).out[i].result.Ok? ==>
      1 <= Run(s, ops).out[i].result.value.progress <= Run(s, ops).out[i].result.value.required == t
    decreases |ops|
  {
    if ops != [] {
      var first := Apply(s, ops[0]);
      RunRespectsThreshold(first.next, ops[1..], t);
      var r := Run(s, ops);
      assert r.out == [first.out] + Run(first.next, ops[1..]).out;
      forall i | 0 <= i < |ops| && r.out[i].UpdateReply? && r.out[i].result.Ok?
        ensures 1 <= r.out[i].result.value.progress <= r.out[i].result.value.required == t
      {
        if i > 0 {
          assert r.out[i] == Run(first.next, ops[1..]).out[i - 1];
        }
      }
    }
  }

  /** With the threshold unchanged since the session's shares were stored,
      a completing update reports exactly the threshold as its progress. */
  lemma CompletionReportsThreshold(s: Session, h: Host, c: Crypto, key: Share, nonce: string, t: int)
    requires LookupSealConfig(h) == Ok(SealConfig(t))
    requires |s.progress| < t
    requires UpdateStep(s, h, c, key, nonce).out.Ok?
    requires UpdateStep(s, h, c, key, nonce).next.config.None?
    ensures UpdateStep(s, h, c, key, nonce).out.value == VerifyQuorumResult(t, t)
  {
  }

  /** The gates, the nonce and the key lengths all admit `keys` as shares. */
  predicate Admits(h: Host, nonce: string, s: Session, keys: seq<Share>) {
    BarrierGate(h).None? && LookupSealConfig(h).Ok? &&
    s.config.Some? && s.config.value.nonce == nonce &&
    forall i :: 0 <= i < |keys| ==> KeyLengthCheck(h, keys[i]).None?
  }

  /** The updates of `keys`, in order, each with `nonce`. */
  function Submissions(h: Host, c: Crypto, keys: seq<Share>, nonce: string): (ops: seq<Op>)
    ensures |ops| == |keys|
  {
    seq(|keys|, i requires 0 <= i < |keys| => Update(h, c, keys[i], nonce))
  }

  /** Submitting distinct admissible shares below the threshold: the k-th
      accepted submission reports progress k (counting the shares already
      stored), and the shares are stored in submission order. */
  lemma {:induction false} AcceptedSharesCount(s: Session, h: Host, c: Crypto, keys: seq<Share>, nonce: string)
    requires Admits(h, nonce, s, keys)
    requires NoDuplicates(s.progress + keys)
    requires |s.progress| + |keys| < LookupSealConfig(h).value.secretThreshold
    ensures Run(s, Submissions(h, c, keys, nonce)).next == Session(s.config, s.progress + keys)
    ensures forall i :: 0 <= i < |keys| ==>
      Run(s, Submissions(h, c, keys, nonce)).out[i] ==
        UpdateReply(Ok(VerifyQuorumResult(|s.progress| + i + 1, LookupSealConfig(h).value.secretThreshold)))
    decreases |keys|
  {
    var ops := Submissions(h, c, keys, nonce);
    if keys != [] {
      var t := LookupSealConfig(h).value.secretThreshold;
      assert (s.progress + keys)[|s.progress|] == keys[0];
      assert keys[0] !in s.progress by {
        forall j | 0 <= j < |s.progress| ensures s.progress[j] != keys[0] {
          assert (s.progress + keys)[j] == s.progress[j];
        }
      }
      var first := Apply(s, ops[0]);
      assert first.next == Session(s.config, s.progress + [keys[0]]);
      assert first.out == UpdateReply(Ok(VerifyQuorumResult(|s.progress| + 1, t)));
      assert s.progress + keys == first.next.progress + keys[1..];
      assert ops[1..] == Submissions(h, c, keys[1..], nonce);
      AcceptedSharesCount(first.next, h, c, keys[1..], nonce);
      var r := Run(s, ops);
      assert r.out == [first.out] + Run(first.next, ops[1..]).out;
      forall i | 0 <= i < |keys|
        ensures r.out[i] == UpdateReply(Ok(VerifyQuorumResult(|s.progress| + i + 1, t)))
      {
        if i > 0 {
          assert r.out[i] == Run(first.next, ops[1..]).out[i - 1];
        }
      }
    }
  }

  /** A whole verification: from Idle, Init, then exactly `t` distinct
      admissible shares whose combination verifies. Every update but the
      last reports its position, the last reports `t` of `t`, and the
      session is back to Idle. */
  lemma QuorumVerified(h: Host, c: Crypto, keys: seq<Share>, nonce: string, t: int)
    requires BarrierGate(h).None? && LookupSealConfig(h) == Ok(SealConfig(t))
    requires |keys| == t >= 1
    requires forall i :: 0 <= i < |keys| ==> KeyLengthCheck(h, keys[i]).None?
    requires NoDuplicates(keys)
    requires FinalStepSucceeds(c, keys, t)
    ensures var r := Run(Idle, [Init(h, Some(nonce))] + Submissions(h, c, keys, nonce));
      r.next == Idle && r.out[0] == InitReply(Pass) &&
      forall i :: 1 <= i <= t ==> r.out[i] == UpdateReply(Ok(VerifyQuorumResult(i, t)))
  {
    var started := Session(Some(VerifyQuorumConfig(nonce)), []);
    var front, last := keys[..t - 1], keys[t - 1];
    var subs := Submissions(h, c, keys, nonce);
    var frontSubs := Submissions(h, c, front, nonce);
    assert subs == frontSubs + [Update(h, c, last, nonce)];
    RunCons(Idle, Init(h, Some(nonce)), subs);
    assert Apply(Idle, Init(h, Some(nonce))) == Step(started, InitReply(Pass));
    assert NoDuplicates(started.progress + front) by {
      assert started.progress + front == front;
    }
    AcceptedSharesCount(started, h, c, front, nonce);
    var mid := Run(started, frontSubs);
    LastShareCompletes(h, c, keys, nonce, t);
    RunAppend(started, frontSubs, Update(h, c, last, nonce));
    var r := Run(Idle, [Init(h, Some(nonce))] + subs);
    assert r.out == [InitReply(Pass)] + mid.out + [UpdateReply(Ok(VerifyQuorumResult(t, t)))];
    forall i | 1 <= i <= t ensures r.out[i] == UpdateReply(Ok(VerifyQuorumResult(i, t))) {
      if i < t {
        assert r.out[i] == mid.out[i - 1];
      }
    }
  }

  /** The last of `t` distinct shares, after the first `t - 1` are stored,
      completes the verification. */
  lemma LastShareCompletes(h: Host, c: Crypto, keys: seq<Share>, nonce: string, t: int)
    requires BarrierGate(h).None? && LookupSealConfig(h) == Ok(SealConfig(t))
    requires |keys| == t >= 1
    requires KeyLengthCheck(h, keys[t - 1]).None?
    requires NoDuplicates(keys)
    requires FinalStepSucceeds(c, keys, t)
    ensures UpdateStep(Session(Some(VerifyQuorumConfig(nonce)), keys[..t - 1]), h, c, keys[t - 1], nonce)
         == Step(Idle, Ok(VerifyQuorumResult(t, t)))
  {
    var front, last := keys[..t - 1], keys[t - 1];
    assert front + [last] == keys;
    assert last !in front by {
      forall j | 0 <= j < |front| ensures front[j] != last {
        assert keys[j] == front[j];
      }
    }
  }

  /** Running one more call after a run. */
  lemma {:induction false} RunAppend(s: Session, ops: seq<Op>, op: Op)
    ensures Run(s, ops + [op]).next == Apply(Run(s, ops).next, op).next
    ensures Run(s, ops + [op]).out == Run(s, ops).out + [Apply(Run(s, ops).next, op).out]
    decreases |ops|
  {
    if ops == [] {
      assert ops + [op] == [op];
    } else {
      assert (ops + [op])[1..] == ops[1..] + [op];
      RunAppend(Apply(s, ops[0]).next, ops[1..], op);
    }
  }

  /** Running one call before a run. */
  lemma RunCons(s: Session, op: Op, ops: seq<Op>)
    ensures Run(s, [op] + ops).next == Run(Apply(s, op).next, ops).next
    ensures Run(s, [op] + ops).out == [Apply(s, op).out] + Run(Apply(s, op).next, ops).out
  {
  }

  /** Init while a session exists is refused and leaves it untouched. */
  lemma InitWhileActiveRefused(s: Session, h: Host, generated: Option<string>)
    requires BarrierGate(h).None? && s.config.Some?
    ensures InitStep(s, h, generated) == Step(s, Fail(AlreadyInProgress))
  {
  }

  /** A share equal to any stored one, wherever it sits, is refused as a
      duplicate once the earlier checks pass, and nothing changes. */
  lemma DuplicateRefusedAnywhere(s: Session, h: Host, c: Crypto, nonce: string, i: int)
    requires 0 <= i < |s.progress|
    requires Admits(h, nonce, s, [s.progress[i]])
    ensures UpdateStep(s, h, c, s.progress[i], nonce) == Step(s, Err(DuplicateShare))
  {
    assert KeyLengthCheck(h, [s.progress[i]][0]).None?;
  }

  /** A wrong nonce is refused, naming the session's nonce, and nothing changes. */
  lemma WrongNonceRefused(s: Session, h: Host, c: Crypto, key: Share, nonce: string)
    requires KeyLengthCheck(h, key).None? && LookupSealConfig(h).Ok? && BarrierGate(h).None?
    requires s.config.Some? && s.config.value.nonce != nonce
    ensures UpdateStep(s, h, c, key, nonce) == Step(s, Err(IncorrectNonce(s.config.value.nonce)))
  {
  }

  /** With threshold 1 the outcome does not depend on Combine at all. */
  lemma ThresholdOneSkipsCombine(s: Session, h: Host, c: Crypto, key: Share, nonce: string,
                                 other: seq<Share> -> Option<seq<Byte>>)
    requires LookupSealConfig(h) == Ok(SealConfig(1))
    ensures UpdateStep(s, h, c, key, nonce) == UpdateStep(s, h, c.(combine := other), key, nonce)
  {
  }

  /** Cancel twice is Cancel once; afterwards the reads show no session. */
  lemma CancelIdempotent(s: Session, h: Host)
    ensures CancelStep(CancelStep(s, h).next, h) == CancelStep(s, h)
    ensures CancelStep(s, h).out.Pass? ==>
      ProgressRead(CancelStep(s, h).next, h) == Ok(0) &&
      ConfigurationRead(CancelStep(s, h).next, h) == Ok(None)
  {
  }

  /** Sealed outside recovery mode: every call fails and no call changes the
      session. Update fails on the key length or the seal configuration
      first when those are wrong, and otherwise with Sealed. */
  lemma {:induction false} SealedHostChangesNothing(s: Session, ops: seq<Op>)
    requires forall i :: 0 <= i < |ops| ==> ops[i].h.sealed && !ops[i].h.recoveryMode
    ensures Run(s, ops).next == s
    ensures forall i :: 0 <= i < |ops| ==> Failed(Run(s, ops).out[i])
    decreases |ops|
  {
    if ops != [] {
      var first := Apply(s, ops[0]);
      assert first.next == s;
      SealedHostChangesNothing(s, ops[1..]);
      var r := Run(s, ops);
      forall i | 0 <= i < |ops| ensures Failed(r.out[i]) {
        if i > 0 {
          assert r.out[i] == Run(s, ops[1..]).out[i - 1];
        }
      }
    }
  }

  /** The reply reports an error; Update's error is one of those checked
      no later than the seal status. */
  predicate Failed(reply: Reply) {
    match reply
    case InitReply(o) => o == Fail(Sealed)
    case UpdateReply(r) =>
      r.Err? && (r.error.IsInvalidKey() || r.error in {SealConfigUnavailable, NotInitialized, Sealed})
    case CancelReply(o) => o == Fail(Sealed)
    case ProgressReply(n) => n == Err(Sealed)
    case ConfigurationReply(cfg) => cfg == Err(Sealed)
  }

  /** Threshold 3: shares A and B count 1 and 2, A again is a duplicate and
      changes nothing, C completes the quorum, and the reads then show no
      session. */
  lemma ThresholdThreeScenario(h: Host, c: Crypto, a: Share, b: Share, d: Share, nonce: string)
    requires BarrierGate(h).None? && LookupSealConfig(h) == Ok(SealConfig(3))
    requires KeyLengthCheck(h, a).None? && KeyLengthCheck(h, b).None? && KeyLengthCheck(h, d).None?
    requires a != b && a != d && b != d
    requires FinalStepSucceeds(c, [a, b, d], 3)
    ensures var r := Run(Idle, [Init(h, Some(nonce)), Update(h, c, a, nonce), Update(h, c, b, nonce),
                                Update(h, c, a, nonce), Update(h, c, d, nonce), ReadProgress(h),
                                ReadConfiguration(h)]);
      r.out == [InitReply(Pass),
                UpdateReply(Ok(VerifyQuorumResult(1, 3))),
                UpdateReply(Ok(VerifyQuorumResult(2, 3))),
                UpdateReply(Err(DuplicateShare)),
                UpdateReply(Ok(VerifyQuorumResult(3, 3))),
                ProgressReply(Ok(0)),
                ConfigurationReply(Ok(None))] &&
      r.next == Idle
  {
    var s0 := Session(Some(VerifyQuorumConfig(nonce)), []);
    var s1, s2 := Session(s0.config, [a]), Session(s0.config, [a, b]);
    ThresholdThreeSteps(h, c, a, b, d, nonce);
    var u1, u2, u3, u4 := Update(h, c, a, nonce), Update(h, c, b, nonce), Update(h, c, a, nonce), Update(h, c, d, nonce);
    RunCons(Idle, ReadConfiguration(h), []);
    RunCons(Idle, ReadProgress(h), [ReadConfiguration(h)]);
    RunCons(s2, u4, [ReadProgress(h), ReadConfiguration(h)]);
    RunCons(s2, u3, [u4, ReadProgress(h), ReadConfiguration(h)]);
    RunCons(s1, u2, [u3, u4, ReadProgress(h), ReadConfiguration(h)]);
    RunCons(s0, u1, [u2, u3, u4, ReadProgress(h), ReadConfiguration(h)]);
    RunCons(Idle, Init(h, Some(nonce)), [u1, u2, u3, u4, ReadProgress(h), ReadConfiguration(h)]);
  }

  /** The single steps of ThresholdThreeScenario. */
  lemma ThresholdThreeSteps(h: Host, c: Crypto, a: Share, b: Share, d: Share, nonce: string)
    requires BarrierGate(h).None? && LookupSealConfig(h) == Ok(SealConfig(3))
    requires KeyLengthCheck(h, a).None? && KeyLengthCheck(h, b).None? && KeyLengthCheck(h, d).None?
    requires a != b && a != d && b != d
    requires FinalStepSucceeds(c, [a, b, d], 3)
    ensures var s0 := Session(Some(VerifyQuorumConfig(nonce)), []);
      var s1, s2 := Session(s0.config, [a]), Session(s0.config, [a, b]);
      InitStep(Idle, h, Some(nonce)) == Step(s0, Pass) &&
      UpdateStep(s0, h, c, a, nonce) == Step(s1, Ok(VerifyQuorumResult(1, 3))) &&
      UpdateStep(s1, h, c, b, nonce) == Step(s2, Ok(VerifyQuorumResult(2, 3))) &&
      UpdateStep(s2, h, c, a, nonce) == Step(s2, Err(DuplicateShare)) &&
      UpdateStep(s2, h, c, d, nonce) == Step(Idle, Ok(VerifyQuorumResult(3, 3)))
  {
    assert [] + [a] == [a];
    assert [a] + [b] == [a, b];
    assert [a, b] + [d] == [a, b, d];
  }

  /** Threshold 1: one update completes the verification, returns 1 of 1,
      and leaves the session Idle, whatever Combine would have done. */
  lemma ThresholdOneScenario(h: Host, c: Crypto, x: Share, nonce: string)
    requires BarrierGate(h).None? && LookupSealConfig(h) == Ok(SealConfig(1))
    requires KeyLengthCheck(h, x).None?
    requires c.unsealToRoot(x).Some? && c.verifyRoot(c.unsealToRoot(x).value)
    ensures var r := Run(Idle, [Init(h, Some(nonce)), Update(h, c, x, nonce)]);
      r.out == [InitReply(Pass), UpdateReply(Ok(VerifyQuorumResult(1, 1)))] && r.next == Idle
  {
    var s0 := Session(Some(VerifyQuorumConfig(nonce)), []);
    assert [] + [x] == [x];
    assert UpdateStep(s0, h, c, x, nonce) == Step(Idle, Ok(VerifyQuorumResult(1, 1)));
    RunCons(s0, Update(h, c, x, nonce), []);
    RunCons(Idle, Init(h, Some(nonce)), [Update(h, c, x, nonce)]);
  }

  /** A failed final step keeps the nonce: the session stays active with no
      shares, so the same nonce can start collecting shares again, while a
      new Init is refused until Cancel. */
  lemma FailedFinalStepKeepsNonce(s: Session, h: Host, c: Crypto, key: Share, nonce: string, t: int,
                                  generated: Option<string>)
    requires PassesChecks(s, h, key, nonce, t)
    requires |s.progress| + 1 >= t
    requires !FinalStepSucceeds(c, s.progress + [key], t)
    ensures UpdateStep(s, h, c, key, nonce).out.Err?
    ensures UpdateStep(s, h, c, key, nonce).out.error.IsFinalStepError()
    ensures var next := UpdateStep(s, h, c, key, nonce).next;
      next == Session(Some(VerifyQuorumConfig(nonce)), []) &&
      InitStep(next, h, generated).out == Fail(AlreadyInProgress)
  {
  }
}
