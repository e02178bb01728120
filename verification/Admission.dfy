/** The admission evaluator: one procedure that escalates an outcome, and the
    declarative reading of what it decides. */
module Admission {
  import opened Wrappers
  import opened Records
  import opened Attestation
  import Digest
  import Policy
  import SemVer
  import Signing

  datatype Evidence = Evidence(
    subjectDigest: string, provider: string, providerVersion: string, completedAt: Time,
    complete: bool, passed: bool, risk: string, capabilities: seq<string>,
    dsse: Option<DSSEEnvelope>, sigstore: Option<SigstoreBundle>, github: Option<GitHubAttestation>)

  datatype ApprovalRecord = ApprovalRecord(
    subjectDigest: string, environment: string, capability: string, expiresAt: Time)

  datatype EvaluationRequest = EvaluationRequest(
    subject: ArtifactSubject, environment: string, evidence: Evidence,
    approvals: seq<string>, approvalRecords: seq<ApprovalRecord>)

  /** The evaluator's configuration, with the library functions it calls. */
  datatype Evaluator = Evaluator(
    policy: Policy.Policy,
    crypto: Crypto,
    parseDuration: string -> Option<int>,
    digestOf: Policy.Policy -> string,
    mac: Signing.Mac,
    signer: Option<Signing.DecisionSigner>)

  /** What a revocation or quarantine checker answered, if one is configured. */
  datatype Lookup = NotConfigured | Unavailable | Known(held: bool)

  /** Everything an evaluation reads besides policy and request. `wall` is the clock the
      certificate check reads on its own. */
  datatype Context = Context(now: Time, wall: Time, decisionId: string, revoked: Lookup, quarantined: Lookup)

  const MAX_DURATION: int := 0x7FFF_FFFF_FFFF_FFFF

  /** time.Time.Sub: the difference, saturated to a 64-bit duration. */
  function Sub(later: Time, earlier: Time): int {
    var d := later - earlier;
    if d > MAX_DURATION then MAX_DURATION
    else if d < -MAX_DURATION - 1 then -MAX_DURATION - 1
    else d
  }

  // The declarative specification: when does each check fire?

  predicate VersionMet(p: Policy.Policy, offered: string) {
    var got := SemVer.Parsed(offered);
    got.Some? && !SemVer.Before(got.value, SemVer.Parsed(p.minimumVersion).GetOr(SemVer.Version(0, 0, 0)))
  }

  predicate RecordApproves(rec: ApprovalRecord, cap: string, req: EvaluationRequest, now: Time) {
    && rec.capability == cap
    && rec.subjectDigest == req.subject.digest
    && (rec.environment == "" || rec.environment == req.environment)
    && (rec.expiresAt == ZERO_TIME || now < rec.expiresAt)
  }

  predicate Approved(cap: string, req: EvaluationRequest, now: Time) {
    cap in req.approvals || exists rec | rec in req.approvalRecords :: RecordApproves(rec, cap, req, now)
  }

  const IN_TOTO: string := "application/vnd.in-toto+json"

  predicate Fires(f: Finding, e: Evaluator, req: EvaluationRequest, ctx: Context) {
    var p, ev := e.policy, req.evidence;
    match f
    case SubjectDigestInvalid => Digest.ValidateSHA256(req.subject.digest).Some?
    case EvidenceSubjectMismatch => ev.subjectDigest != req.subject.digest
    case RevocationStateUnavailable => ctx.revoked.Unavailable?
    case DigestRevoked => ctx.revoked == Known(true)
    case QuarantineStateUnavailable => ctx.quarantined.Unavailable?
    case DigestQuarantined => ctx.quarantined == Known(true)
    case EnvironmentDenied => req.environment !in p.environments
    case AssuranceProviderMissing => ev.provider != p.provider
    case AssuranceVersionTooOld => !VersionMet(p, ev.providerVersion)
    case AssuranceIncomplete => p.requireComplete && !ev.complete
    case AssuranceFailed => !ev.passed
    case AssuranceStale =>
      p.maximumAge != "" &&
      (ev.completedAt == ZERO_TIME || Sub(ctx.now, ev.completedAt) > e.parseDuration(p.maximumAge).GetOr(0))
    case SigstoreInvalid =>
      p.signaturesRequired && ev.sigstore.Some? &&
      !SigstoreAccepted(e.crypto, ev.sigstore.value, req.subject.digest, p.trustedIdentities, ctx.wall)
    case DSSEInvalid =>
      p.signaturesRequired && ev.sigstore.None? && ev.dsse.Some? && p.trustedIdentities != [] &&
      !DSSEAccepted(e.crypto, ev.dsse.value, p.trustedIdentities[0])
    case SignatureUnverified =>
      p.signaturesRequired && ev.sigstore.None? && (ev.dsse.None? || p.trustedIdentities == [])
    case ProvenanceInvalid =>
      p.provenanceRequired &&
      if ev.github.Some? then !GitHubAccepted(e.crypto, ev.github.value, req.subject.digest)
      else ev.dsse.Some? && ev.dsse.value.payloadType != IN_TOTO
    case ProvenanceUnverified => p.provenanceRequired && ev.github.None? && ev.dsse.None?
    case RiskTooHigh => Policy.RiskRank(ev.risk) > Policy.RiskRank(p.riskMaximum)
    case CapabilityDenied(cap) => cap in ev.capabilities && cap in p.denied
    case ApprovalRequired(cap) =>
      cap in ev.capabilities && cap in p.approvalRequired && !Approved(cap, req, ctx.now)
    case AdmissionAllowed => false
  }

  // The order in which the procedure reports them.

  /** Which checks fire in this evaluation. */
  function Firing(e: Evaluator, req: EvaluationRequest, ctx: Context): Finding -> bool {
    (f: Finding) => Fires(f, e, req, ctx)
  }

  function When(fires: Finding -> bool, checks: seq<Finding>): seq<Finding> {
    if checks == [] then []
    else
      var n := |checks| - 1;
      When(fires, checks[..n]) + if fires(checks[n]) then [checks[n]] else []
  }

  const SUBJECT_CHECKS: seq<Finding> := [SubjectDigestInvalid, EvidenceSubjectMismatch]
  const REVOCATION_CHECKS: seq<Finding> := [RevocationStateUnavailable, DigestRevoked]
  const QUARANTINE_CHECKS: seq<Finding> := [QuarantineStateUnavailable, DigestQuarantined]
  const ENVIRONMENT_CHECKS: seq<Finding> := [EnvironmentDenied, AssuranceProviderMissing]
  const VERSION_CHECKS: seq<Finding> := [AssuranceVersionTooOld]
  const COMPLETENESS_CHECKS: seq<Finding> := [AssuranceIncomplete, AssuranceFailed]
  const AGE_CHECKS: seq<Finding> := [AssuranceStale]
  const SIGNATURE_CHECKS: seq<Finding> := [SigstoreInvalid, DSSEInvalid, SignatureUnverified]
  const PROVENANCE_CHECKS: seq<Finding> := [ProvenanceInvalid, ProvenanceUnverified]
  const RISK_CHECKS: seq<Finding> := [RiskTooHigh]

  function CapabilityChecks(caps: seq<string>): seq<Finding> {
    if caps == [] then []
    else
      var n := |caps| - 1;
      CapabilityChecks(caps[..n]) + [CapabilityDenied(caps[n]), ApprovalRequired(caps[n])]
  }

  function FixedChecks(): seq<Finding> {
    SUBJECT_CHECKS + REVOCATION_CHECKS + QUARANTINE_CHECKS + ENVIRONMENT_CHECKS + VERSION_CHECKS
    + COMPLETENESS_CHECKS + AGE_CHECKS + SIGNATURE_CHECKS + PROVENANCE_CHECKS + RISK_CHECKS
  }

  /** Every check, in the order the procedure makes them. */
  function AllChecks(req: EvaluationRequest): seq<Finding> {
    FixedChecks() + CapabilityChecks(req.evidence.capabilities)
  }

  function FindingsOf(e: Evaluator, req: EvaluationRequest, ctx: Context): seq<Finding> {
    When(Firing(e, req, ctx), AllChecks(req))
  }

  function Max(a: Outcome, b: Outcome): Outcome {
    if Rank(a) < Rank(b) then b else a
  }

  /** The join of what the findings ask for. */
  function Worst(fs: seq<Finding>): Outcome {
    if fs == [] then Allow else Max(Worst(fs[..|fs| - 1]), SeverityOf(fs[|fs| - 1]))
  }

  function OutcomeOf(e: Evaluator, req: EvaluationRequest, ctx: Context): Outcome {
    Worst(FindingsOf(e, req, ctx))
  }

  function RuntimePolicyFor(e: Evaluator, req: EvaluationRequest, ctx: Context): RuntimePolicy {
    RuntimePolicy(
      req.subject.digest, ctx.decisionId, req.environment, e.digestOf(e.policy),
      ctx.now, ctx.now + DAY,
      e.policy.allowedCommands, e.policy.allowWorkspaceWrite, e.policy.allowNetwork,
      e.policy.allowedSecrets, e.policy.timeoutSeconds, e.policy.maxOutputBytes)
  }

  function DecisionOf(e: Evaluator, req: EvaluationRequest, ctx: Context): Decision {
    var outcome := OutcomeOf(e, req, ctx);
    var fs := FindingsOf(e, req, ctx);
    var claim := Signing.Claim(ctx.decisionId, req.subject.digest, req.environment, OutcomeText(outcome));
    Decision(
      ctx.decisionId, outcome, req.subject, req.environment, e.policy.name, e.digestOf(e.policy),
      ctx.now, ctx.now + DAY,
      if e.signer.Some? then e.signer.value.issuer else "",
      if e.signer.Some? then e.signer.value.keyId else "",
      if e.signer.Some? then Signing.Sign(e.signer.value, e.mac, claim) else "",
      if fs == [] then [AdmissionAllowed] else fs,
      if outcome == Allow then Some(RuntimePolicyFor(e, req, ctx)) else None)
  }

  // The procedure.

  /** The decision under construction, with the evaluator's three closures as methods.
      `fires` says which checks hold, and `checked` lists those made so far. */
  class Draft {
    ghost const fires: Finding -> bool
    ghost var checked: seq<Finding>
    var outcome: Outcome
    var reasons: seq<Finding>

    ghost predicate Valid()
      reads this
    {
      && outcome == Worst(reasons)
      && reasons == When(fires, checked)
    }

    constructor (ghost fires: Finding -> bool)
      ensures this.fires == fires
      ensures Valid() && checked == []
    {
      this.fires := fires;
      outcome, reasons, checked := Allow, [], [];
    }

    method Deny(holds: bool, f: Finding)
      requires Valid() && SeverityOf(f) == Outcome.Deny
      requires holds <==> fires(f)
      modifies this
      ensures Valid() && checked == old(checked) + [f]
    {
      Noted(f);
      if holds {
        outcome := Outcome.Deny;
        reasons := reasons + [f];
      }
    }

    method Review(holds: bool, f: Finding)
      requires Valid() && SeverityOf(f) == ReviewRequired
      requires holds <==> fires(f)
      modifies this
      ensures Valid() && checked == old(checked) + [f]
    {
      Noted(f);
      if holds {
        if outcome != Outcome.Deny {
          outcome := ReviewRequired;
        }
        reasons := reasons + [f];
      }
    }

    method Reassess(holds: bool, f: Finding)
      requires Valid() && SeverityOf(f) == ReassessRequired
      requires holds <==> fires(f)
      modifies this
      ensures Valid() && checked == old(checked) + [f]
    {
      Noted(f);
      if holds {
        if outcome != Outcome.Deny && outcome != ReviewRequired {
          outcome := ReassessRequired;
        }
        reasons := reasons + [f];
      }
    }

    ghost method Noted(f: Finding)
      requires Valid()
      modifies this`checked
      ensures checked == old(checked) + [f]
      ensures When(fires, checked) == reasons + if fires(f) then [f] else []
      ensures Worst(reasons + [f]) == Max(outcome, SeverityOf(f))
      ensures Rank(outcome) <= 3
    {
      WorstExtends(reasons, f);
      WhenExtends(fires, checked, f);
      checked := checked + [f];
    }
  }

  lemma WorstExtends(fs: seq<Finding>, f: Finding)
    ensures Worst(fs + [f]) == Max(Worst(fs), SeverityOf(f))
    ensures Rank(Worst(fs)) <= 3
  {
    assert (fs + [f])[..|fs|] == fs;
    WorstIsFour(fs);
  }

  lemma {:induction false} WorstIsFour(fs: seq<Finding>)
    ensures Rank(Worst(fs)) <= 3
  {
    if fs != [] {
      WorstIsFour(fs[..|fs| - 1]);
    }
  }

  lemma WhenExtends(fires: Finding -> bool, checks: seq<Finding>, f: Finding)
    ensures When(fires, checks + [f]) == When(fires, checks) + if fires(f) then [f] else []
  {
    assert (checks + [f])[..|checks|] == checks;
  }

  method CheckSubject(draft: Draft, e: Evaluator, req: EvaluationRequest, ctx: Context)
    requires draft.Valid() && draft.fires == Firing(e, req, ctx)
    modifies draft
    ensures draft.Valid()
    ensures draft.checked == old(draft.checked) + SUBJECT_CHECKS
  {
    draft.Deny(Digest.ValidateSHA256(req.subject.digest).Some?, SubjectDigestInvalid);
    draft.Deny(req.evidence.subjectDigest != req.subject.digest, EvidenceSubjectMismatch);
  }

  /** The two store lookups fail closed. */
  method CheckRevocation(draft: Draft, e: Evaluator, req: EvaluationRequest, ctx: Context)
    requires draft.Valid() && draft.fires == Firing(e, req, ctx)
    modifies draft
    ensures draft.Valid()
    ensures draft.checked == old(draft.checked) + REVOCATION_CHECKS
  {
    draft.Deny(ctx.revoked.Unavailable?, RevocationStateUnavailable);
    draft.Deny(ctx.revoked.Known? && ctx.revoked.held, DigestRevoked);
  }

  method CheckQuarantine(draft: Draft, e: Evaluator, req: EvaluationRequest, ctx: Context)
    requires draft.Valid() && draft.fires == Firing(e, req, ctx)
    modifies draft
    ensures draft.Valid()
    ensures draft.checked == old(draft.checked) + QUARANTINE_CHECKS
  {
    draft.Deny(ctx.quarantined.Unavailable?, QuarantineStateUnavailable);
    draft.Deny(ctx.quarantined.Known? && ctx.quarantined.held, DigestQuarantined);
  }

  method MeetsMinimum(p: Policy.Policy, offered: string) returns (met: bool)
    ensures met <==> VersionMet(p, offered)
  {
    var minimum := SemVer.Parse(p.minimumVersion);
    var got := SemVer.Parse(offered);
    if got.None? {
      return false;
    }
    var c := SemVer.Compare(got.value, minimum.GetOr(SemVer.Version(0, 0, 0)));
    return c >= 0;
  }

  method CheckEnvironment(draft: Draft, e: Evaluator, req: EvaluationRequest, ctx: Context)
    requires draft.Valid() && draft.fires == Firing(e, req, ctx)
    modifies draft
    ensures draft.Valid()
    ensures draft.checked == old(draft.checked) + ENVIRONMENT_CHECKS
  {
    draft.Deny(req.environment !in e.policy.environments, EnvironmentDenied);
    draft.Deny(req.evidence.provider != e.policy.provider, AssuranceProviderMissing);
  }

  method CheckVersion(draft: Draft, e: Evaluator, req: EvaluationRequest, ctx: Context)
    requires draft.Valid() && draft.fires == Firing(e, req, ctx)
    modifies draft
    ensures draft.Valid()
    ensures draft.checked == old(draft.checked) + VERSION_CHECKS
  {
    var met := MeetsMinimum(e.policy, req.evidence.providerVersion);
    draft.Reassess(!met, AssuranceVersionTooOld);
  }

  method CheckCompleteness(draft: Draft, e: Evaluator, req: EvaluationRequest, ctx: Context)
    requires draft.Valid() && draft.fires == Firing(e, req, ctx)
    modifies draft
    ensures draft.Valid()
    ensures draft.checked == old(draft.checked) + COMPLETENESS_CHECKS
  {
    draft.Deny(e.policy.requireComplete && !req.evidence.complete, AssuranceIncomplete);
    draft.Deny(!req.evidence.passed, AssuranceFailed);
  }

  method CheckAge(draft: Draft, e: Evaluator, req: EvaluationRequest, ctx: Context)
    requires draft.Valid() && draft.fires == Firing(e, req, ctx)
    modifies draft
    ensures draft.Valid()
    ensures draft.checked == old(draft.checked) + AGE_CHECKS
  {
    var maxAge := e.parseDuration(e.policy.maximumAge).GetOr(0);
    var stale := req.evidence.completedAt == ZERO_TIME || Sub(ctx.now, req.evidence.completedAt) > maxAge;
    draft.Reassess(e.policy.maximumAge != "" && stale, AssuranceStale);
  }

  method CheckSignature(draft: Draft, e: Evaluator, req: EvaluationRequest, ctx: Context)
    requires draft.Valid() && draft.fires == Firing(e, req, ctx)
    modifies draft
    ensures draft.Valid()
    ensures draft.checked == old(draft.checked) + SIGNATURE_CHECKS
  {
    var badBundle, badEnvelope, unverified := JudgeSignature(e, req, ctx);
    draft.Deny(badBundle, SigstoreInvalid);
    draft.Deny(badEnvelope, DSSEInvalid);
    draft.Deny(unverified, SignatureUnverified);
  }

  /** At most one of the three signature complaints, by what the evidence offers. */
  method JudgeSignature(e: Evaluator, req: EvaluationRequest, ctx: Context)
    returns (badBundle: bool, badEnvelope: bool, unverified: bool)
    ensures badBundle <==> Fires(SigstoreInvalid, e, req, ctx)
    ensures badEnvelope <==> Fires(DSSEInvalid, e, req, ctx)
    ensures unverified <==> Fires(SignatureUnverified, e, req, ctx)
  {
    var p, ev := e.policy, req.evidence;
    badBundle, badEnvelope, unverified := false, false, false;
    if p.signaturesRequired {
      if ev.sigstore.Some? {
        var ok := VerifySigstore(e.crypto, ev.sigstore.value, req.subject.digest, p.trustedIdentities, ctx.wall);
        badBundle := !ok;
      } else if ev.dsse.Some? && |p.trustedIdentities| > 0 {
        var ok := VerifyDSSE(e.crypto, ev.dsse.value, p.trustedIdentities[0]);
        badEnvelope := !ok;
      } else {
        unverified := true;
      }
    }
  }

  method CheckProvenance(draft: Draft, e: Evaluator, req: EvaluationRequest, ctx: Context)
    requires draft.Valid() && draft.fires == Firing(e, req, ctx)
    modifies draft
    ensures draft.Valid()
    ensures draft.checked == old(draft.checked) + PROVENANCE_CHECKS
  {
    var ev := req.evidence;
    var invalid, unverified := false, false;
    if e.policy.provenanceRequired {
      if ev.github.Some? {
        invalid := !GitHubAccepted(e.crypto, ev.github.value, req.subject.digest);
      } else if ev.dsse.Some? {
        invalid := ev.dsse.value.payloadType != IN_TOTO;
      } else {
        unverified := true;
      }
    }
    draft.Deny(invalid, ProvenanceInvalid);
    draft.Deny(unverified, ProvenanceUnverified);
  }

  method CheckRisk(draft: Draft, e: Evaluator, req: EvaluationRequest, ctx: Context)
    requires draft.Valid() && draft.fires == Firing(e, req, ctx)
    modifies draft
    ensures draft.Valid()
    ensures draft.checked == old(draft.checked) + RISK_CHECKS
  {
    draft.Deny(Policy.RiskRank(req.evidence.risk) > Policy.RiskRank(e.policy.riskMaximum), RiskTooHigh);
  }

  method IsApproved(cap: string, req: EvaluationRequest, now: Time) returns (approved: bool)
    ensures approved <==> Approved(cap, req, now)
  {
    approved := cap in req.approvals;
    if !approved {
      for i := 0 to |req.approvalRecords|
        invariant !approved
        invariant forall k | 0 <= k < i :: !RecordApproves(req.approvalRecords[k], cap, req, now)
      {
        var rec := req.approvalRecords[i];
        if rec.capability == cap && rec.subjectDigest == req.subject.digest {
          if rec.environment == "" || rec.environment == req.environment {
            if rec.expiresAt == ZERO_TIME || now < rec.expiresAt {
              assert rec in req.approvalRecords && RecordApproves(rec, cap, req, now);
              approved := true;
              return;
            }
          }
        }
      }
    }
  }

  method CheckCapabilities(draft: Draft, e: Evaluator, req: EvaluationRequest, ctx: Context)
    requires draft.Valid() && draft.fires == Firing(e, req, ctx)
    modifies draft
    ensures draft.Valid()
    ensures draft.checked == old(draft.checked) + CapabilityChecks(req.evidence.capabilities)
  {
    var caps := req.evidence.capabilities;
    for i := 0 to |caps|
      invariant draft.Valid()
      invariant draft.checked == old(draft.checked) + CapabilityChecks(caps[..i])
    {
      assert caps[..i + 1][..i] == caps[..i];
      CheckCapability(draft, e, req, ctx, caps[i]);
    }
    assert caps[..|caps|] == caps;
  }

  method CheckCapability(draft: Draft, e: Evaluator, req: EvaluationRequest, ctx: Context, cap: string)
    requires draft.Valid() && draft.fires == Firing(e, req, ctx)
    requires cap in req.evidence.capabilities
    modifies draft
    ensures draft.Valid()
    ensures draft.checked == old(draft.checked) + [CapabilityDenied(cap), ApprovalRequired(cap)]
  {
    draft.Deny(cap in e.policy.denied, CapabilityDenied(cap));
    var pending := false;
    if cap in e.policy.approvalRequired {
      var approved := IsApproved(cap, req, ctx.now);
      pending := !approved;
    }
    draft.Review(pending, ApprovalRequired(cap));
  }

  method RunChecks(e: Evaluator, req: EvaluationRequest, ctx: Context) returns (draft: Draft)
    ensures draft.reasons == FindingsOf(e, req, ctx)
    ensures draft.outcome == OutcomeOf(e, req, ctx)
  {
    draft := new Draft(Firing(e, req, ctx));
    CheckSubject(draft, e, req, ctx);
    assert draft.checked == SUBJECT_CHECKS;
    CheckRevocation(draft, e, req, ctx);
    CheckQuarantine(draft, e, req, ctx);
    CheckEnvironment(draft, e, req, ctx);
    CheckVersion(draft, e, req, ctx);
    CheckCompleteness(draft, e, req, ctx);
    CheckAge(draft, e, req, ctx);
    CheckSignature(draft, e, req, ctx);
    CheckProvenance(draft, e, req, ctx);
    CheckRisk(draft, e, req, ctx);
    CheckCapabilities(draft, e, req, ctx);
    assert draft.checked == AllChecks(req);
  }

  method Evaluate(e: Evaluator, req: EvaluationRequest, ctx: Context) returns (d: Decision)
    ensures d == DecisionOf(e, req, ctx)
  {
    var draft := RunChecks(e, req, ctx);
    d := Decision(
      ctx.decisionId, draft.outcome, req.subject, req.environment, e.policy.name, e.digestOf(e.policy),
      ctx.now, ctx.now + DAY, "", "", "", draft.reasons, None);
    if d.outcome == Allow {
      d := d.(runtimePolicy := Some(RuntimePolicyFor(e, req, ctx)));
    }
    if e.signer.Some? {
      var s := e.signer.value;
      var claim := Signing.Claim(d.decisionId, d.subject.digest, d.environment, OutcomeText(d.outcome));
      d := d.(issuer := s.issuer, keyId := s.keyId, signature := Signing.Sign(s, e.mac, claim));
    }
    if |d.reasons| == 0 {
      d := d.(reasons := [AdmissionAllowed]);
    }
  }
}
