/** The admission rules as a policy author reads them: which fields of the policy, the request
    and the store's answers give which outcome and which reason codes. */
module AdmissionRules {
  import opened Wrappers
  import opened Records
  import opened Admission
  import opened AdmissionLaws
  import Attestation
  import Digest
  import Policy
  import SemVer

  // The rules.

  /** The evidence speaks of the requested artifact, and its digest is well formed. */
  ghost predicate Bound(req: EvaluationRequest) {
    Digest.WellFormed(req.subject.digest) && req.evidence.subjectDigest == req.subject.digest
  }

  /** A configured store answered, and the answer was no. */
  ghost predicate Clear(l: Lookup) {
    !(l.Unavailable? || (l.Known? && l.held))
  }

  ghost predicate Assured(p: Policy.Policy, req: EvaluationRequest) {
    && (exists env | env in p.environments :: env == req.environment)
    && req.evidence.provider == p.provider
    && (p.requireComplete ==> req.evidence.complete)
    && req.evidence.passed
  }

  /** Required signatures: a bundle if there is one, else an envelope for the first identity. */
  ghost predicate Signed(e: Evaluator, req: EvaluationRequest, ctx: Context) {
    var ids, ev := e.policy.trustedIdentities, req.evidence;
    e.policy.signaturesRequired ==>
      if ev.sigstore.Some? then
        Attestation.SigstoreAccepted(e.crypto, ev.sigstore.value, req.subject.digest, ids, ctx.wall)
      else
        ev.dsse.Some? && |ids| > 0 && Attestation.DSSEAccepted(e.crypto, ev.dsse.value, ids[0])
  }

  /** Required provenance: an attestation if there is one, else an in-toto envelope. */
  ghost predicate Proven(e: Evaluator, req: EvaluationRequest) {
    e.policy.provenanceRequired ==>
      if req.evidence.github.Some? then
        var att := req.evidence.github.value;
        && att.subjectDigest == req.subject.digest
        && (att.builderId != "" || att.repository != "")
        && (att.certificate == ""
            || (var cert := e.crypto.parseCertificate(att.certificate); cert.Some? && e.crypto.githubChain(cert.value)))
      else
        req.evidence.dsse.Some? && req.evidence.dsse.value.payloadType == "application/vnd.in-toto+json"
  }

  ghost predicate Permitted(p: Policy.Policy, req: EvaluationRequest) {
    && Policy.RiskRank(req.evidence.risk) <= Policy.RiskRank(p.riskMaximum)
    && forall cap | cap in req.evidence.capabilities :: cap !in p.denied
  }

  /** Nothing is a ground for denial. */
  ghost predicate Undenied(e: Evaluator, req: EvaluationRequest, ctx: Context) {
    && Bound(req) && Clear(ctx.revoked) && Clear(ctx.quarantined) && Assured(e.policy, req)
    && Signed(e, req, ctx) && Proven(e, req) && Permitted(e.policy, req)
  }

  /** Every gated capability is approved by name, or by a record for this artifact, here and now. */
  ghost predicate AllApproved(p: Policy.Policy, req: EvaluationRequest, now: Time) {
    forall cap | cap in req.evidence.capabilities && cap in p.approvalRequired :: IsApprovedFor(cap, req, now)
  }

  ghost predicate IsApprovedFor(cap: string, req: EvaluationRequest, now: Time) {
    || cap in req.approvals
    || exists rec | rec in req.approvalRecords ::
         && rec.capability == cap && rec.subjectDigest == req.subject.digest
         && rec.environment in ["", req.environment]
         && (rec.expiresAt == 0 || rec.expiresAt > now)
  }

  /** The provider's version parses and is not below the minimum; a minimum that does not parse
      counts as 0.0.0. */
  ghost predicate NewEnough(p: Policy.Policy, offered: string) {
    var got, least := SemVer.Parsed(offered), SemVer.Parsed(p.minimumVersion).GetOr(SemVer.Version(0, 0, 0));
    && got.Some?
    && got.value.major >= least.major
    && (got.value.major == least.major ==> got.value.minor >= least.minor)
    && (got.value.major == least.major && got.value.minor == least.minor ==> got.value.patch >= least.patch)
  }

  /** The evidence says when it was completed, and that was not longer ago than allowed. */
  ghost predicate FreshEnough(e: Evaluator, req: EvaluationRequest, now: Time) {
    e.policy.maximumAge != "" ==>
      && req.evidence.completedAt != 0
      && Sub(now, req.evidence.completedAt) <= e.parseDuration(e.policy.maximumAge).GetOr(0)
  }

  /** Every rule is met. */
  ghost predicate Admissible(e: Evaluator, req: EvaluationRequest, ctx: Context) {
    && Undenied(e, req, ctx) && AllApproved(e.policy, req, ctx.now)
    && NewEnough(e.policy, req.evidence.providerVersion) && FreshEnough(e, req, ctx.now)
  }

  /** Elapsed time is the difference, held within a 64-bit number of nanoseconds. */
  lemma SubSaturates(later: Time, earlier: Time)
    ensures var d := later - earlier;
            Sub(later, earlier) == if d >= 0x8000_0000_0000_0000 then 0x7FFF_FFFF_FFFF_FFFF
                                   else if d < -0x8000_0000_0000_0000 then -0x8000_0000_0000_0000
                                   else d
  {
  }

  // What the evaluator does with them.

  /** A denying finding fires only where a rule is broken. */
  lemma UndeniedFiresNothing(e: Evaluator, req: EvaluationRequest, ctx: Context, f: Finding)
    requires Undenied(e, req, ctx) && SeverityOf(f) == Deny
    ensures !Fires(f, e, req, ctx)
  {
  }

  lemma StoreAndEvidenceRules(e: Evaluator, req: EvaluationRequest, ctx: Context)
    requires forall f | SeverityOf(f) == Deny :: !Fires(f, e, req, ctx)
    ensures Bound(req) && Clear(ctx.revoked) && Clear(ctx.quarantined) && Assured(e.policy, req)
  {
    assert !Fires(SubjectDigestInvalid, e, req, ctx) && !Fires(EvidenceSubjectMismatch, e, req, ctx);
    assert !Fires(RevocationStateUnavailable, e, req, ctx) && !Fires(DigestRevoked, e, req, ctx);
    assert !Fires(QuarantineStateUnavailable, e, req, ctx) && !Fires(DigestQuarantined, e, req, ctx);
    assert !Fires(EnvironmentDenied, e, req, ctx) && !Fires(AssuranceProviderMissing, e, req, ctx);
    assert !Fires(AssuranceIncomplete, e, req, ctx) && !Fires(AssuranceFailed, e, req, ctx);
  }

  lemma SignatureRules(e: Evaluator, req: EvaluationRequest, ctx: Context)
    requires forall f | SeverityOf(f) == Deny :: !Fires(f, e, req, ctx)
    ensures Signed(e, req, ctx)
  {
    assert !Fires(SigstoreInvalid, e, req, ctx);
    assert !Fires(DSSEInvalid, e, req, ctx);
    assert !Fires(SignatureUnverified, e, req, ctx);
  }

  lemma ProvenanceRules(e: Evaluator, req: EvaluationRequest, ctx: Context)
    requires forall f | SeverityOf(f) == Deny :: !Fires(f, e, req, ctx)
    ensures Proven(e, req)
  {
    assert !Fires(ProvenanceInvalid, e, req, ctx);
    assert !Fires(ProvenanceUnverified, e, req, ctx);
  }

  lemma PermissionRules(e: Evaluator, req: EvaluationRequest, ctx: Context)
    requires forall f | SeverityOf(f) == Deny :: !Fires(f, e, req, ctx)
    ensures Permitted(e.policy, req)
  {
    assert !Fires(RiskTooHigh, e, req, ctx);
    forall cap | cap in req.evidence.capabilities
      ensures cap !in e.policy.denied
    {
      assert !Fires(CapabilityDenied(cap), e, req, ctx);
    }
  }

  lemma NothingDeniesExactly(e: Evaluator, req: EvaluationRequest, ctx: Context)
    ensures (forall f | SeverityOf(f) == Deny :: !Fires(f, e, req, ctx)) <==> Undenied(e, req, ctx)
  {
    if Undenied(e, req, ctx) {
      forall f | SeverityOf(f) == Deny
        ensures !Fires(f, e, req, ctx)
      {
        UndeniedFiresNothing(e, req, ctx, f);
      }
    }
    if forall f | SeverityOf(f) == Deny :: !Fires(f, e, req, ctx) {
      StoreAndEvidenceRules(e, req, ctx);
      SignatureRules(e, req, ctx);
      ProvenanceRules(e, req, ctx);
      PermissionRules(e, req, ctx);
    }
  }

  lemma ApprovedExactly(cap: string, req: EvaluationRequest, now: Time)
    ensures Approved(cap, req, now) <==> IsApprovedFor(cap, req, now)
  {
    forall rec | rec in req.approvalRecords
      ensures RecordApproves(rec, cap, req, now)
         <==> && rec.capability == cap && rec.subjectDigest == req.subject.digest
              && rec.environment in ["", req.environment]
              && (rec.expiresAt == 0 || rec.expiresAt > now)
    {
    }
  }

  lemma NothingNeedsReviewExactly(e: Evaluator, req: EvaluationRequest, ctx: Context)
    ensures (forall f | SeverityOf(f) == ReviewRequired :: !Fires(f, e, req, ctx))
       <==> AllApproved(e.policy, req, ctx.now)
  {
    forall cap
      ensures Fires(ApprovalRequired(cap), e, req, ctx)
         <==> cap in req.evidence.capabilities && cap in e.policy.approvalRequired && !IsApprovedFor(cap, req, ctx.now)
    {
      ApprovedExactly(cap, req, ctx.now);
    }
    forall f | SeverityOf(f) == ReviewRequired
      ensures f.ApprovalRequired?
    {
    }
  }

  lemma NothingNeedsReassessmentExactly(e: Evaluator, req: EvaluationRequest, ctx: Context)
    ensures (forall f | SeverityOf(f) == ReassessRequired :: !Fires(f, e, req, ctx))
       <==> NewEnough(e.policy, req.evidence.providerVersion) && FreshEnough(e, req, ctx.now)
  {
    assert SeverityOf(AssuranceVersionTooOld) == ReassessRequired && SeverityOf(AssuranceStale) == ReassessRequired;
    VersionRule(e, req, ctx);
    AgeRule(e, req, ctx);
  }

  lemma VersionRule(e: Evaluator, req: EvaluationRequest, ctx: Context)
    ensures Fires(AssuranceVersionTooOld, e, req, ctx) <==> !NewEnough(e.policy, req.evidence.providerVersion)
  {
  }

  lemma AgeRule(e: Evaluator, req: EvaluationRequest, ctx: Context)
    ensures Fires(AssuranceStale, e, req, ctx) <==> !FreshEnough(e, req, ctx.now)
  {
  }

  /** The outcome, rule by rule: DENY exactly where a denial rule is broken; else REVIEW exactly
      where an approval is missing; else REASSESS exactly where the evidence is too old in version
      or age; and ALLOW exactly where every rule is met. */
  lemma OutcomeByRules(e: Evaluator, req: EvaluationRequest, ctx: Context)
    ensures var o := DecisionOf(e, req, ctx).outcome;
            var undenied, approved := Undenied(e, req, ctx), AllApproved(e.policy, req, ctx.now);
            var current := NewEnough(e.policy, req.evidence.providerVersion) && FreshEnough(e, req, ctx.now);
            && (o == Deny <==> !undenied)
            && (o == ReviewRequired <==> undenied && !approved)
            && (o == ReassessRequired <==> undenied && approved && !current)
            && (o == Allow <==> Admissible(e, req, ctx))
  {
    NothingDeniesExactly(e, req, ctx);
    NothingNeedsReviewExactly(e, req, ctx);
    NothingNeedsReassessmentExactly(e, req, ctx);
    OutcomeBySeverity(e, req, ctx);
  }

  ghost predicate SomeFires(e: Evaluator, req: EvaluationRequest, ctx: Context, o: Outcome) {
    exists f | SeverityOf(f) == o :: Fires(f, e, req, ctx)
  }

  /** The outcome is the gravest severity that fires. */
  lemma OutcomeBySeverity(e: Evaluator, req: EvaluationRequest, ctx: Context)
    ensures var o := OutcomeOf(e, req, ctx);
            && (o == Deny <==> SomeFires(e, req, ctx, Deny))
            && (o == ReviewRequired <==> !SomeFires(e, req, ctx, Deny) && SomeFires(e, req, ctx, ReviewRequired))
            && (o == ReassessRequired <==>
                  !SomeFires(e, req, ctx, Deny) && !SomeFires(e, req, ctx, ReviewRequired)
                  && SomeFires(e, req, ctx, ReassessRequired))
            && o in [Allow, ReassessRequired, ReviewRequired, Deny]
  {
    OutcomeAtMost(e, req, ctx, Allow);
    OutcomeAtMost(e, req, ctx, ReassessRequired);
    OutcomeAtMost(e, req, ctx, ReviewRequired);
    WorstExtends(FindingsOf(e, req, ctx), AdmissionAllowed);
  }

  lemma OutcomeAtMost(e: Evaluator, req: EvaluationRequest, ctx: Context, o: Outcome)
    requires !o.Other?
    ensures Rank(OutcomeOf(e, req, ctx)) <= Rank(o)
       <==> forall x | x in [ReassessRequired, ReviewRequired, Deny] && Rank(x) > Rank(o) :: !SomeFires(e, req, ctx, x)
  {
    OutcomeIsJoin(e, req, ctx, o);
    forall f
      ensures SeverityOf(f) in [Allow, ReassessRequired, ReviewRequired, Deny]
    {
    }
  }

  // The reasons.

  /** The subject and store codes are reported exactly under these conditions. */
  lemma SubjectAndStoreCodes(e: Evaluator, req: EvaluationRequest, ctx: Context)
    ensures var fs := FindingsOf(e, req, ctx);
            && (SubjectDigestInvalid in fs <==> !Digest.WellFormed(req.subject.digest))
            && (EvidenceSubjectMismatch in fs <==> req.evidence.subjectDigest != req.subject.digest)
            && (RevocationStateUnavailable in fs <==> ctx.revoked.Unavailable?)
            && (DigestRevoked in fs <==> ctx.revoked.Known? && ctx.revoked.held)
            && (QuarantineStateUnavailable in fs <==> ctx.quarantined.Unavailable?)
            && (DigestQuarantined in fs <==> ctx.quarantined.Known? && ctx.quarantined.held)
  {
    FindingsExactly(e, req, ctx, SubjectDigestInvalid);
    FindingsExactly(e, req, ctx, EvidenceSubjectMismatch);
    FindingsExactly(e, req, ctx, RevocationStateUnavailable);
    FindingsExactly(e, req, ctx, DigestRevoked);
    FindingsExactly(e, req, ctx, QuarantineStateUnavailable);
    FindingsExactly(e, req, ctx, DigestQuarantined);
  }

  /** The assurance codes about what was assured. */
  lemma AssuranceCodes(e: Evaluator, req: EvaluationRequest, ctx: Context)
    ensures var fs, p, ev := FindingsOf(e, req, ctx), e.policy, req.evidence;
            && (EnvironmentDenied in fs <==> forall env | env in p.environments :: env != req.environment)
            && (AssuranceProviderMissing in fs <==> ev.provider != p.provider)
            && (AssuranceIncomplete in fs <==> p.requireComplete && !ev.complete)
            && (AssuranceFailed in fs <==> !ev.passed)
  {
    FindingsExactly(e, req, ctx, EnvironmentDenied);
    FindingsExactly(e, req, ctx, AssuranceProviderMissing);
    FindingsExactly(e, req, ctx, AssuranceIncomplete);
    FindingsExactly(e, req, ctx, AssuranceFailed);
  }

  /** The assurance codes about how recent it is. */
  lemma CurrencyCodes(e: Evaluator, req: EvaluationRequest, ctx: Context)
    ensures AssuranceVersionTooOld in FindingsOf(e, req, ctx) <==> !NewEnough(e.policy, req.evidence.providerVersion)
    ensures AssuranceStale in FindingsOf(e, req, ctx) <==> !FreshEnough(e, req, ctx.now)
  {
    FindingsExactly(e, req, ctx, AssuranceVersionTooOld);
    FindingsExactly(e, req, ctx, AssuranceStale);
    VersionRule(e, req, ctx);
    AgeRule(e, req, ctx);
  }

  /** The attestation codes: of the three about signatures and the two about provenance at most
      one each, by what the evidence offers. */
  lemma AttestationCodes(e: Evaluator, req: EvaluationRequest, ctx: Context)
    ensures var fs, p, ev := FindingsOf(e, req, ctx), e.policy, req.evidence;
            && (SigstoreInvalid in fs <==> ev.sigstore.Some? && !Signed(e, req, ctx))
            && (DSSEInvalid in fs <==>
                  ev.sigstore.None? && ev.dsse.Some? && |p.trustedIdentities| > 0 && !Signed(e, req, ctx))
            && (SignatureUnverified in fs <==>
                  p.signaturesRequired && ev.sigstore.None? && (ev.dsse.None? || |p.trustedIdentities| == 0))
            && (ProvenanceInvalid in fs <==> (ev.github.Some? || ev.dsse.Some?) && !Proven(e, req))
            && (ProvenanceUnverified in fs <==> p.provenanceRequired && ev.github.None? && ev.dsse.None?)
  {
    FindingsExactly(e, req, ctx, SigstoreInvalid);
    FindingsExactly(e, req, ctx, DSSEInvalid);
    FindingsExactly(e, req, ctx, SignatureUnverified);
    FindingsExactly(e, req, ctx, ProvenanceInvalid);
    FindingsExactly(e, req, ctx, ProvenanceUnverified);
  }

  lemma RiskCode(e: Evaluator, req: EvaluationRequest, ctx: Context)
    ensures RiskTooHigh in FindingsOf(e, req, ctx)
       <==> Policy.RiskRank(req.evidence.risk) > Policy.RiskRank(e.policy.riskMaximum)
  {
    FindingsExactly(e, req, ctx, RiskTooHigh);
  }

  /** The permission codes, capability by capability. */
  lemma CapabilityCodes(e: Evaluator, req: EvaluationRequest, ctx: Context, cap: string)
    ensures CapabilityDenied(cap) in FindingsOf(e, req, ctx)
       <==> cap in req.evidence.capabilities && cap in e.policy.denied
    ensures ApprovalRequired(cap) in FindingsOf(e, req, ctx)
       <==> && cap in req.evidence.capabilities && cap in e.policy.approvalRequired
            && !IsApprovedFor(cap, req, ctx.now)
  {
    FindingsExactly(e, req, ctx, CapabilityDenied(cap));
    FindingsExactly(e, req, ctx, ApprovalRequired(cap));
    ApprovedExactly(cap, req, ctx.now);
  }

  // The rest of the decision.

  /** The decision names what was asked, when and under which policy, for 24 hours; an ALLOW
      carries the policy's own runtime limits. */
  lemma DecisionFields(e: Evaluator, req: EvaluationRequest, ctx: Context)
    ensures var d, p := DecisionOf(e, req, ctx), e.policy;
            && d.decisionId == ctx.decisionId && d.subject == req.subject && d.environment == req.environment
            && d.policyName == p.name && d.policyDigest == e.digestOf(p)
            && d.evaluatedAt == ctx.now && d.expiresAt == ctx.now + 24 * 60 * 60 * 1_000_000_000
            && (e.signer.Some? ==> d.issuer == e.signer.value.issuer && d.keyId == e.signer.value.keyId)
            && (e.signer.None? ==> d.issuer == "" && d.keyId == "" && d.signature == "")
            && (d.runtimePolicy.Some? ==>
                  var r := d.runtimePolicy.value;
                  && r.issuedAt == ctx.now && r.expiresAt == d.expiresAt
                  && r.allowedCommands == p.allowedCommands && r.allowedSecrets == p.allowedSecrets
                  && r.allowWrite == p.allowWorkspaceWrite && r.allowNetwork == p.allowNetwork
                  && r.timeoutSeconds == p.timeoutSeconds && r.maxOutputBytes == p.maxOutputBytes)
  {
  }

  /** What is signed, written out: issuer, identifier, digest, environment and the outcome's word,
      parted by colons. */
  lemma SignedText(e: Evaluator, req: EvaluationRequest, ctx: Context)
    requires e.signer.Some? && e.signer.value.secret != ""
    ensures var d, s := DecisionOf(e, req, ctx), e.signer.value;
            var word := if d.outcome == Allow then "ALLOW"
                        else if d.outcome == ReassessRequired then "REASSESS_REQUIRED"
                        else if d.outcome == ReviewRequired then "REVIEW_REQUIRED"
                        else "DENY";
            var rest := req.subject.digest + (":" + (req.environment + ":" + word));
            d.signature == e.mac(s.secret, s.issuer + ":" + (ctx.decisionId + ":" + rest))
  {
    WorstExtends(FindingsOf(e, req, ctx), AdmissionAllowed);
  }

  /** Under a validated policy, an older major version is too old, whatever the other components. */
  lemma OlderMajorIsTooOld(e: Evaluator, req: EvaluationRequest, ctx: Context)
    requires Policy.Validate(e.policy, e.parseDuration).None? && SemVer.Parsed(req.evidence.providerVersion).Some?
    requires SemVer.Parsed(req.evidence.providerVersion).value.major
           < SemVer.Parsed(e.policy.minimumVersion).value.major
    ensures AssuranceVersionTooOld in FindingsOf(e, req, ctx)
    ensures DecisionOf(e, req, ctx).outcome != Allow
  {
    CurrencyCodes(e, req, ctx);
    OutcomeByRules(e, req, ctx);
  }

  /** Evidence of another artifact never gets in. */
  lemma OtherEvidenceIsDenied(e: Evaluator, req: EvaluationRequest, ctx: Context)
    requires req.evidence.subjectDigest != req.subject.digest
    ensures DecisionOf(e, req, ctx).outcome == Deny
  {
    OutcomeByRules(e, req, ctx);
  }
}
