/** The gate a checkpoint must pass before its memory is used for a decision. */
module CheckpointGate {
  import opened CorrectionLog
  import opened CorrectionIndex
  import opened CorrectionPayload
  import opened Hashes
  import opened Results
  import opened Strings

  datatype Barrier = Barrier(mustInterrupt: bool, mustReproject: bool, blocking: seq<Payload>)

  datatype Verdict = Pending | Pass | CorrectionEmitted | Inconclusive

  datatype Signature = Signature(algorithm: string, keyId: string, bytes: string)

  datatype Certificate = Certificate(verdict: Verdict, rangeStart: U64, rangeEnd: U64, driftScore: real,
      signatures: seq<Signature>)

  /** The threshold is a number or, as `None`, not a number. */
  datatype Request = Request(
    tenantId: string,
    sessionId: string,
    checkpoint: Hash256,
    rangeStart: U64,
    rangeEnd: U64,
    eventCount: U64,
    compatibilityOk: bool,
    thawVerificationOk: bool,
    maxDrift: Option<real>,
    requireSignature: bool,
    minSignatures: int,
    allowedAlgorithms: seq<string>)

  /** `latest` looks the certificate up; a verifier, if there is one, accepts or rejects signatures. */
  datatype Auditing = Auditing(latest: (string, string, Hash256) -> Result<Certificate, Code>,
                               verifier: Option<(Certificate, Signature) -> bool>)

  datatype Reason =
      Incompatible | ThawFailed | BlockedByCorrection | NoCertificate | AuditPending | AuditNotPassed | NotCovered
    | Drifted | NoVerifier | TooFewSignatures | Passed

  datatype Decision = Decision(mayUse: bool, reason: Reason)

  // ---- the correction barrier ----------------------------------------------------------------

  predicate AnyInterrupts(blocking: seq<Payload>) {
    exists k :: 0 <= k < |blocking| && blocking[k].mustInterrupt
  }

  method EvaluateCorrectionBarrier(h: Hash256, corrections: seq<Payload>) returns (b: Barrier)
    ensures b == BarrierFor(h, corrections)
  {
    var blocking := BlockingCorrectionsFor(corrections, h);
    if blocking == [] {
      return Barrier(false, false, []);
    }
    var interrupt := false;
    var k := 0;
    while k < |blocking|
      invariant 0 <= k <= |blocking|
      invariant interrupt <==> exists j :: 0 <= j < k && blocking[j].mustInterrupt
    {
      interrupt := interrupt || blocking[k].mustInterrupt;
      k := k + 1;
    }
    return Barrier(interrupt, true, blocking);
  }

  function BarrierFor(h: Hash256, corrections: seq<Payload>): Barrier {
    var blocking := BlockingOf(corrections, h);
    Barrier(AnyInterrupts(blocking), blocking != [], blocking)
  }

  // ---- signatures --------------------------------------------------------------------------------

  predicate Counts(c: Certificate, s: Signature, allowed: seq<string>, verify: (Certificate, Signature) -> bool) {
    (allowed == [] || s.algorithm in allowed) && s.algorithm != "" && s.keyId != "" && s.bytes != "" && verify(c, s)
  }

  function CountValid(c: Certificate, signatures: seq<Signature>, allowed: seq<string>,
      verify: (Certificate, Signature) -> bool): (n: nat)
  {
    if signatures == [] then 0
    else
      var k := |signatures| - 1;
      CountValid(c, signatures[..k], allowed, verify) + (if Counts(c, signatures[k], allowed, verify) then 1 else 0)
  }

  method CountValidAuditCertificateSignatures(c: Certificate, allowed: seq<string>,
      verify: (Certificate, Signature) -> bool)
    returns (valid: nat)
    ensures valid == CountValid(c, c.signatures, allowed, verify)
  {
    valid := 0;
    var k := 0;
    while k < |c.signatures|
      invariant 0 <= k <= |c.signatures| && valid == CountValid(c, c.signatures[..k], allowed, verify)
    {
      assert c.signatures[..k + 1][..k] == c.signatures[..k];
      if Counts(c, c.signatures[k], allowed, verify) {
        valid := valid + 1;
      }
      k := k + 1;
    }
    assert c.signatures[..k] == c.signatures;
  }

  // ---- the gate ------------------------------------------------------------------------------------

  function RequestedEnd(r: Request): U64 {
    if r.rangeEnd != 0 then r.rangeEnd else r.eventCount
  }

  predicate WellFormed(r: Request) {
    && r.tenantId != "" && r.sessionId != ""
    && r.maxDrift.Some? && 0.0 <= r.maxDrift.value <= 1.0
    && r.minSignatures >= 1
    && r.rangeStart < RequestedEnd(r)
  }

  /** `MayUseCheckpointForDecision`. */
  function MayUse(r: Request, auditing: Auditing, corrections: seq<Payload>): Result<Decision, Code> {
    if !WellFormed(r) then Err(InvalidArgument)
    else if !r.compatibilityOk then Ok(Decision(false, Incompatible))
    else if !r.thawVerificationOk then Ok(Decision(false, ThawFailed))
    else if BarrierFor(r.checkpoint, corrections).mustReproject then Ok(Decision(false, BlockedByCorrection))
    else
      var found := auditing.latest(r.tenantId, r.sessionId, r.checkpoint);
      if found.Err? then (if found.error == NotFound then Ok(Decision(false, NoCertificate)) else Err(found.error))
      else if found.value.verdict == Pending then Ok(Decision(false, AuditPending))
      else if found.value.verdict != Pass then Ok(Decision(false, AuditNotPassed))
      else if found.value.rangeStart > r.rangeStart || found.value.rangeEnd < RequestedEnd(r)
          then Ok(Decision(false, NotCovered))
      else if found.value.driftScore > r.maxDrift.value then Ok(Decision(false, Drifted))
      else if r.requireSignature && auditing.verifier.None? then Ok(Decision(false, NoVerifier))
      else if r.requireSignature && CountValid(found.value, found.value.signatures, r.allowedAlgorithms,
          auditing.verifier.value) < r.minSignatures
        then Ok(Decision(false, TooFewSignatures))
      else Ok(Decision(true, Passed))
  }

  predicate Within(i: int, start: int, end: int) {
    start <= i < end
  }

  /** The certificate passed, covers every requested event and drifts no more than allowed. */
  ghost predicate Vouches(c: Certificate, r: Request) {
    && c.verdict == Pass
    && (forall i :: Within(i, r.rangeStart, if r.rangeEnd != 0 then r.rangeEnd else r.eventCount) ==>
          Within(i, c.rangeStart, c.rangeEnd))
    && r.maxDrift.Some? && c.driftScore <= r.maxDrift.value
  }

  /** The signatures with an allowed algorithm, complete and verified. */
  function Valid(c: Certificate, allowed: seq<string>, verify: (Certificate, Signature) -> bool): (places: set<nat>) {
    set k: nat | k < |c.signatures| && var s := c.signatures[k];
      (allowed == [] || s.algorithm in allowed) && s.algorithm != "" && s.keyId != "" && s.bytes != "" && verify(c, s)
  }

  /** It has the signatures asked for, if any are. */
  ghost predicate Signed(c: Certificate, r: Request, verifier: Option<(Certificate, Signature) -> bool>) {
    r.requireSignature ==> verifier.Some? && |Valid(c, r.allowedAlgorithms, verifier.value)| >= r.minSignatures
  }

  /** Ids are given, a threshold between zero and one, at least one signature, and events to cover. */
  predicate Proper(r: Request) {
    && r.tenantId != "" && r.sessionId != ""
    && r.maxDrift.Some? && r.maxDrift.value >= 0.0 && r.maxDrift.value <= 1.0
    && r.minSignatures > 0
    && (if r.rangeEnd != 0 then r.rangeStart < r.rangeEnd else r.rangeStart < r.eventCount)
  }

  /** A blocking correction of the checkpoint or one that invalidates it. */
  predicate IsBlocked(h: Hash256, corrections: seq<Payload>) {
    exists p :: p in corrections && p.severity == Blocking && (p.target == h || h in p.invalidates)
  }

  lemma {:induction false} CountIsValid(c: Certificate, n: nat, allowed: seq<string>,
      verify: (Certificate, Signature) -> bool)
    requires n <= |c.signatures|
    ensures CountValid(c, c.signatures[..n], allowed, verify) ==
            |set k | k in Valid(c, allowed, verify) && k < n|
  {
    hide Valid, Counts;
    var valid := Valid(c, allowed, verify);
    var places := set k | k in valid && k < n;
    if n == 0 {
      assert places == {};
    } else {
      CountIsValid(c, n - 1, allowed, verify);
      assert c.signatures[..n][..n - 1] == c.signatures[..n - 1];
      ValidAt(c, n - 1, allowed, verify);
      var before := set k | k in valid && k < n - 1;
      assert places == if n - 1 in valid then before + {n - 1} else before;
    }
  }

  lemma ValidAt(c: Certificate, k: nat, allowed: seq<string>, verify: (Certificate, Signature) -> bool)
    requires k < |c.signatures|
    ensures k in Valid(c, allowed, verify) <==> Counts(c, c.signatures[k], allowed, verify)
  {
  }

  lemma {:induction false} SignedIff(c: Certificate, r: Request, verify: (Certificate, Signature) -> bool)
    ensures CountValid(c, c.signatures, r.allowedAlgorithms, verify) == |Valid(c, r.allowedAlgorithms, verify)|
  {
    hide CountValid;
    CountIsValid(c, |c.signatures|, r.allowedAlgorithms, verify);
    assert c.signatures[..|c.signatures|] == c.signatures;
    var valid := Valid(c, r.allowedAlgorithms, verify);
    assert (set k | k in valid && k < |c.signatures|) == valid;
  }

  /** The gate opens exactly for a proper request for a compatible checkpoint that thawed, that no correction
      blocks, and whose latest certificate vouches for every requested event and is signed as asked. */
  lemma {:induction false} GateOpensIff(r: Request, auditing: Auditing, corrections: seq<Payload>)
    ensures var answer := MayUse(r, auditing, corrections);
            var found := auditing.latest(r.tenantId, r.sessionId, r.checkpoint);
            && (answer.Ok? && answer.value.mayUse <==>
                  && Proper(r) && r.compatibilityOk && r.thawVerificationOk && !IsBlocked(r.checkpoint, corrections)
                  && found.Ok? && Vouches(found.value, r) && Signed(found.value, r, auditing.verifier))
            && (answer.Ok? ==> (answer.value.mayUse <==> answer.value.reason == Passed))
  {
    hide CountValid, BarrierFor, IsBlocked, Valid;
    BlockedIff(r.checkpoint, corrections);
    var found := auditing.latest(r.tenantId, r.sessionId, r.checkpoint);
    if Proper(r) && found.Ok? {
      CoversIff(found.value, r);
      if auditing.verifier.Some? { SignedIff(found.value, r, auditing.verifier.value); }
    }
  }

  /** What the request must meet so as not to be refused for a reason; from the verdict on, of the latest
      certificate `found`. */
  ghost predicate Meets(r: Request, found: Result<Certificate, Code>, corrections: seq<Payload>, reason: Reason,
      verifier: Option<(Certificate, Signature) -> bool>)
    requires Rank(reason) > Rank(NoCertificate) ==> found.Ok?
  {
    match reason
    case Incompatible => r.compatibilityOk
    case ThawFailed => r.thawVerificationOk
    case BlockedByCorrection => !IsBlocked(r.checkpoint, corrections)
    case NoCertificate => found != Err(NotFound)
    case AuditPending => found.value.verdict != Pending
    case AuditNotPassed => found.value.verdict == Pass
    case NotCovered =>
      forall i :: Within(i, r.rangeStart, if r.rangeEnd != 0 then r.rangeEnd else r.eventCount) ==>
        Within(i, found.value.rangeStart, found.value.rangeEnd)
    case Drifted => r.maxDrift.Some? && found.value.driftScore <= r.maxDrift.value
    case NoVerifier => r.requireSignature ==> verifier.Some?
    case TooFewSignatures => Signed(found.value, r, verifier)
    case Passed => true
  }

  /** The order of the checks. */
  function Rank(reason: Reason): nat {
    match reason
    case Incompatible => 0 case ThawFailed => 1 case BlockedByCorrection => 2 case NoCertificate => 3
    case AuditPending => 4 case AuditNotPassed => 5 case NotCovered => 6 case Drifted => 7
    case NoVerifier => 8 case TooFewSignatures => 9 case Passed => 10
  }

  /** A reason is given for a proper request exactly if it is the first that the request does not meet, a
      certificate having been found for those about it; and an error is returned exactly for an improper
      request, and for a lookup that fails other than by finding none, if what comes before it is met. */
  lemma {:induction false} GateRefusesIff(r: Request, auditing: Auditing, corrections: seq<Payload>, reason: Reason,
      code: Code)
    requires reason != Passed
    ensures var answer := MayUse(r, auditing, corrections);
            var found := auditing.latest(r.tenantId, r.sessionId, r.checkpoint);
            && (answer == Ok(Decision(false, reason)) <==>
                  && Proper(r) && (Rank(reason) > Rank(NoCertificate) ==> found.Ok?)
                  && !Meets(r, found, corrections, reason, auditing.verifier)
                  && forall other | Rank(other) < Rank(reason) ::
                       Meets(r, found, corrections, other, auditing.verifier))
            && (answer == Err(code) <==>
                  || (!Proper(r) && code == InvalidArgument)
                  || (Proper(r) && r.compatibilityOk && r.thawVerificationOk && !IsBlocked(r.checkpoint, corrections)
                      && found == Err(code) && code != NotFound))
  {
    hide CountValid, BarrierFor, IsBlocked, Valid;
    BlockedIff(r.checkpoint, corrections);
    var found := auditing.latest(r.tenantId, r.sessionId, r.checkpoint);
    if Proper(r) && found.Ok? {
      CoversIff(found.value, r);
      if auditing.verifier.Some? { SignedIff(found.value, r, auditing.verifier.value); }
    }
    if Rank(reason) > Rank(NoCertificate) ==> found.Ok? {
      EarlierMet(r, found, corrections, Rank(reason), auditing.verifier);
    }
  }

  /** The checks one by one. */
  lemma {:induction false} EarlierMet(r: Request, found: Result<Certificate, Code>, corrections: seq<Payload>, n: nat,
      verifier: Option<(Certificate, Signature) -> bool>)
    requires n > 4 ==> found.Ok?
    requires n < 10
    ensures (forall other | Rank(other) < n :: Meets(r, found, corrections, other, verifier)) <==>
            && (n > 0 ==> Meets(r, found, corrections, Incompatible, verifier))
            && (n > 1 ==> Meets(r, found, corrections, ThawFailed, verifier))
            && (n > 2 ==> Meets(r, found, corrections, BlockedByCorrection, verifier))
            && (n > 3 ==> Meets(r, found, corrections, NoCertificate, verifier))
            && (n > 4 ==> Meets(r, found, corrections, AuditPending, verifier))
            && (n > 5 ==> Meets(r, found, corrections, AuditNotPassed, verifier))
            && (n > 6 ==> Meets(r, found, corrections, NotCovered, verifier))
            && (n > 7 ==> Meets(r, found, corrections, Drifted, verifier))
            && (n > 8 ==> Meets(r, found, corrections, NoVerifier, verifier))
  {
    hide Meets;
    assert Rank(Incompatible) == 0 && Rank(ThawFailed) == 1 && Rank(BlockedByCorrection) == 2;
    assert Rank(NoCertificate) == 3 && Rank(AuditPending) == 4 && Rank(AuditNotPassed) == 5;
    assert Rank(NotCovered) == 6 && Rank(Drifted) == 7 && Rank(NoVerifier) == 8;
    forall other: Reason | Rank(other) < n
      ensures other in {Incompatible, ThawFailed, BlockedByCorrection, NoCertificate, AuditPending, AuditNotPassed,
                        NotCovered, Drifted, NoVerifier}
    {
    }
  }

  lemma BlockedIff(h: Hash256, corrections: seq<Payload>)
    ensures BarrierFor(h, corrections).mustReproject <==> exists p :: p in corrections && Blocks(p, h)
    ensures BarrierFor(h, corrections).mustReproject <==> IsBlocked(h, corrections)
  {
    var blocking := BlockingOf(corrections, h);
    if blocking != [] { assert blocking[0] in blocking; }
  }

  lemma CoversIff(c: Certificate, r: Request)
    requires r.rangeStart < RequestedEnd(r)
    ensures (forall i :: Within(i, r.rangeStart, RequestedEnd(r)) ==> Within(i, c.rangeStart, c.rangeEnd)) <==>
            c.rangeStart <= r.rangeStart && RequestedEnd(r) <= c.rangeEnd
  {
    if forall i :: Within(i, r.rangeStart, RequestedEnd(r)) ==> Within(i, c.rangeStart, c.rangeEnd) {
      assert Within(r.rangeStart, r.rangeStart, RequestedEnd(r));
      assert Within(RequestedEnd(r) - 1, r.rangeStart, RequestedEnd(r));
    }
  }

  /** Corrections only ever close the gate: what is refused with some is not accepted with more. */
  lemma MoreCorrectionsNeverOpen(r: Request, auditing: Auditing, fewer: seq<Payload>, more: seq<Payload>)
    requires forall p :: p in fewer ==> p in more
    requires MayUse(r, auditing, more).Ok? && MayUse(r, auditing, more).value.mayUse
    ensures MayUse(r, auditing, fewer) == MayUse(r, auditing, more)
  {
    hide CountValid, BlockingOf, Blocks;
    BlockedIff(r.checkpoint, fewer);
    BlockedIff(r.checkpoint, more);
  }

  /** The gate's refusals on account of corrections are those of the barrier, which asks for a new projection
      exactly if a correction blocks the checkpoint, and for an interruption exactly if one of those does. */
  lemma {:induction false} BarrierIs(h: Hash256, corrections: seq<Payload>)
    ensures var b := BarrierFor(h, corrections);
            && (forall p :: p in b.blocking <==>
                  p in corrections && p.severity == Blocking && (p.target == h || h in p.invalidates))
            && (b.mustReproject <==> IsBlocked(h, corrections))
            && (b.mustInterrupt <==> exists p :: p in b.blocking && p.mustInterrupt)
  {
    BlockedIff(h, corrections);
    var blocking := BlockingOf(corrections, h);
    if AnyInterrupts(blocking) {
      var k :| 0 <= k < |blocking| && blocking[k].mustInterrupt;
      assert blocking[k] in blocking;
    }
  }
}
