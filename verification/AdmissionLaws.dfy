/** What the evaluator's outcome means, and how it moves when its inputs move. */
module AdmissionLaws {
  import opened Wrappers
  import opened Records
  import opened Admission
  import Digest
  import Policy
  import SemVer
  import Signing

  // The outcome as a join.

  lemma {:induction false} WhenExactly(fires: Finding -> bool, checks: seq<Finding>, f: Finding)
    ensures f in When(fires, checks) <==> f in checks && fires(f)
  {
    if checks != [] {
      var n := |checks| - 1;
      assert checks == checks[..n] + [checks[n]];
      WhenExactly(fires, checks[..n], f);
    }
  }

  lemma {:induction false} CapabilityChecked(caps: seq<string>, cap: string)
    ensures CapabilityDenied(cap) in CapabilityChecks(caps) <==> cap in caps
    ensures ApprovalRequired(cap) in CapabilityChecks(caps) <==> cap in caps
  {
    if caps != [] {
      var n := |caps| - 1;
      assert caps == caps[..n] + [caps[n]];
      CapabilityChecked(caps[..n], cap);
    }
  }

  /** No check that can fire is left out of the procedure. */
  lemma EveryFiringCheckIsMade(f: Finding, e: Evaluator, req: EvaluationRequest, ctx: Context)
    requires Fires(f, e, req, ctx)
    ensures f in AllChecks(req)
  {
    match f
    case CapabilityDenied(cap) => CapabilityChecked(req.evidence.capabilities, cap);
    case ApprovalRequired(cap) => CapabilityChecked(req.evidence.capabilities, cap);
    case AdmissionAllowed =>
    case _ =>
      assert f in FixedChecks();
  }

  /** The reported findings are exactly the checks that fire. */
  lemma FindingsExactly(e: Evaluator, req: EvaluationRequest, ctx: Context, f: Finding)
    ensures f in FindingsOf(e, req, ctx) <==> Fires(f, e, req, ctx)
  {
    WhenExactly(Firing(e, req, ctx), AllChecks(req), f);
    if Fires(f, e, req, ctx) {
      EveryFiringCheckIsMade(f, e, req, ctx);
    }
  }

  lemma {:induction false} WorstIsUpperBound(fs: seq<Finding>, f: Finding)
    requires f in fs
    ensures Rank(SeverityOf(f)) <= Rank(Worst(fs))
  {
    var n := |fs| - 1;
    assert fs == fs[..n] + [fs[n]];
    if f in fs[..n] {
      WorstIsUpperBound(fs[..n], f);
    }
  }

  lemma {:induction false} WorstIsReached(fs: seq<Finding>) returns (f: Finding)
    requires Worst(fs) != Allow
    ensures f in fs && SeverityOf(f) == Worst(fs)
  {
    var n := |fs| - 1;
    if SeverityOf(fs[n]) == Worst(fs) {
      f := fs[n];
    } else {
      f := WorstIsReached(fs[..n]);
      assert f in fs;
    }
  }

  /** The outcome is the least upper bound, in ALLOW < REASSESS < REVIEW < DENY, of what the
      firing checks ask for, in whatever order they were made. */
  lemma OutcomeIsJoin(e: Evaluator, req: EvaluationRequest, ctx: Context, o: Outcome)
    requires !o.Other?
    ensures Rank(OutcomeOf(e, req, ctx)) <= Rank(o)
       <==> forall f | Fires(f, e, req, ctx) :: Rank(SeverityOf(f)) <= Rank(o)
  {
    var fs := FindingsOf(e, req, ctx);
    forall f | Fires(f, e, req, ctx)
      ensures Rank(SeverityOf(f)) <= Rank(Worst(fs))
    {
      FindingsExactly(e, req, ctx, f);
      WorstIsUpperBound(fs, f);
    }
    if Worst(fs) != Allow {
      var f := WorstIsReached(fs);
      FindingsExactly(e, req, ctx, f);
    }
  }

  /** ALLOW, no check firing, a runtime policy being attached, and SKGATE-ALLOW being the
      only reason are one and the same; the runtime policy is bound to what was asked. */
  lemma AllowExactly(e: Evaluator, req: EvaluationRequest, ctx: Context)
    ensures var d := DecisionOf(e, req, ctx);
            && (d.outcome == Allow <==> forall f :: !Fires(f, e, req, ctx))
            && (d.outcome == Allow <==> d.runtimePolicy.Some?)
            && (d.outcome == Allow <==> d.reasons == [AdmissionAllowed])
            && (d.runtimePolicy.Some? ==>
                  var r := d.runtimePolicy.value;
                  && r.artifactDigest == d.subject.digest == req.subject.digest
                  && r.environment == d.environment == req.environment
                  && r.policyDigest == d.policyDigest && r.decisionId == d.decisionId
                  && r.issuedAt == d.evaluatedAt && r.expiresAt == d.expiresAt == d.evaluatedAt + DAY)
  {
    NoFindings(e, req, ctx);
    NeverReportedAsAllowed(e, req, ctx);
  }

  /** SKGATE-ALLOW is not among the findings. */
  lemma NeverReportedAsAllowed(e: Evaluator, req: EvaluationRequest, ctx: Context)
    ensures FindingsOf(e, req, ctx) != [AdmissionAllowed]
  {
    FindingsExactly(e, req, ctx, AdmissionAllowed);
    assert AdmissionAllowed in [AdmissionAllowed];
  }

  lemma NoFindings(e: Evaluator, req: EvaluationRequest, ctx: Context)
    ensures FindingsOf(e, req, ctx) == [] <==> forall f :: !Fires(f, e, req, ctx)
    ensures FindingsOf(e, req, ctx) == [] <==> OutcomeOf(e, req, ctx) == Allow
  {
    var fs := FindingsOf(e, req, ctx);
    forall f
      ensures f in fs <==> Fires(f, e, req, ctx)
    {
      FindingsExactly(e, req, ctx, f);
    }
    if fs != [] {
      var f := fs[|fs| - 1];
      assert f in fs;
      WorstIsUpperBound(fs, f);
      assert Rank(SeverityOf(f)) > 0;
    }
  }

  // Monotonicity.

  /** `q` asks for at least what `p` asks for: it denies and gates at least the same
      capabilities under a ceiling that is no higher. */
  ghost predicate StricterPolicy(p: Policy.Policy, q: Policy.Policy) {
    && q == p.(denied := q.denied, approvalRequired := q.approvalRequired, riskMaximum := q.riskMaximum)
    && (forall c | c in p.denied :: c in q.denied)
    && (forall c | c in p.approvalRequired :: c in q.approvalRequired)
    && Policy.RiskRank(q.riskMaximum) <= Policy.RiskRank(p.riskMaximum)
  }

  /** `s` wants at least the capabilities of `r` and brings at most its approvals. */
  ghost predicate StricterRequest(r: EvaluationRequest, s: EvaluationRequest) {
    && s == r.(evidence := r.evidence.(capabilities := s.evidence.capabilities),
               approvals := s.approvals, approvalRecords := s.approvalRecords)
    && (forall c | c in r.evidence.capabilities :: c in s.evidence.capabilities)
    && (forall c | c in s.approvals :: c in r.approvals)
    && (forall rec | rec in s.approvalRecords :: rec in r.approvalRecords)
  }

  /** `d` is the same reading of the world at the same time or later. */
  ghost predicate Later(c: Context, d: Context) {
    d == c.(now := d.now, decisionId := d.decisionId) && c.now <= d.now
  }

  lemma ApprovalsOnlyExpire(cap: string, r: EvaluationRequest, s: EvaluationRequest, t: Time, u: Time)
    requires StricterRequest(r, s) && t <= u
    requires Approved(cap, s, u)
    ensures Approved(cap, r, t)
  {
    if cap !in s.approvals {
      var rec :| rec in s.approvalRecords && RecordApproves(rec, cap, s, u);
      assert RecordApproves(rec, cap, r, t);
    }
  }

  /** Whatever fires under the weaker input fires under the stricter one. */
  lemma FiresMonotone(f: Finding, e: Evaluator, q: Policy.Policy, r: EvaluationRequest, s: EvaluationRequest,
                      c: Context, d: Context)
    requires StricterPolicy(e.policy, q) && StricterRequest(r, s) && Later(c, d)
    requires Fires(f, e, r, c)
    ensures Fires(f, e.(policy := q), s, d)
  {
    if f.ApprovalRequired? && Approved(f.capability, s, d.now) {
      ApprovalsOnlyExpire(f.capability, r, s, c.now, d.now);
    }
  }

  /** With verifier and store answers fixed, the outcome never falls when capabilities,
      denied capabilities, approval requirements or time are added, and never rises when
      approvals or approval records are added or the risk ceiling is raised. */
  lemma OutcomeMonotone(e: Evaluator, q: Policy.Policy, r: EvaluationRequest, s: EvaluationRequest,
                        c: Context, d: Context)
    requires StricterPolicy(e.policy, q) && StricterRequest(r, s) && Later(c, d)
    ensures Rank(OutcomeOf(e, r, c)) <= Rank(OutcomeOf(e.(policy := q), s, d))
  {
    var stricter := e.(policy := q);
    var fs := FindingsOf(e, r, c);
    if Worst(fs) != Allow {
      var f := WorstIsReached(fs);
      FindingsExactly(e, r, c, f);
      FiresMonotone(f, e, q, r, s, c, d);
      FindingsExactly(stricter, s, d, f);
      WorstIsUpperBound(FindingsOf(stricter, s, d), f);
    }
  }

  /** The order and the multiplicity of the declared capabilities do not matter. */
  lemma CapabilitiesAreASet(e: Evaluator, r: EvaluationRequest, caps: seq<string>, ctx: Context)
    requires forall c :: c in caps <==> c in r.evidence.capabilities
    ensures OutcomeOf(e, r.(evidence := r.evidence.(capabilities := caps)), ctx) == OutcomeOf(e, r, ctx)
  {
    var s := r.(evidence := r.evidence.(capabilities := caps));
    OutcomeMonotone(e, e.policy, r, s, ctx, ctx);
    OutcomeMonotone(e, e.policy, s, r, ctx, ctx);
    WorstExtends(FindingsOf(e, r, ctx), AdmissionAllowed);
    WorstExtends(FindingsOf(e, s, ctx), AdmissionAllowed);
  }

  /** A newer provider version is never worse, whatever the policy's minimum says. */
  lemma NewerVersionIsNoWorse(e: Evaluator, r: EvaluationRequest, newer: string, ctx: Context)
    requires SemVer.Parsed(r.evidence.providerVersion).Some? && SemVer.Parsed(newer).Some?
    requires !SemVer.Before(SemVer.Parsed(newer).value, SemVer.Parsed(r.evidence.providerVersion).value)
    ensures var s := r.(evidence := r.evidence.(providerVersion := newer));
            Rank(OutcomeOf(e, s, ctx)) <= Rank(OutcomeOf(e, r, ctx))
  {
    var s := r.(evidence := r.evidence.(providerVersion := newer));
    var fs := FindingsOf(e, s, ctx);
    if Worst(fs) != Allow {
      var f := WorstIsReached(fs);
      FindingsExactly(e, s, ctx, f);
      SameApprovals(r, s, ctx.now);
      assert Fires(f, e, r, ctx);
      FindingsExactly(e, r, ctx, f);
      WorstIsUpperBound(FindingsOf(e, r, ctx), f);
    }
  }

  lemma SameApprovals(r: EvaluationRequest, s: EvaluationRequest, t: Time)
    requires s == r.(evidence := s.evidence)
    ensures forall cap :: Approved(cap, r, t) <==> Approved(cap, s, t)
  {
    assert forall rec, cap :: RecordApproves(rec, cap, r, t) <==> RecordApproves(rec, cap, s, t);
  }

  // What policy validation buys.

  lemma FiringDenies(e: Evaluator, req: EvaluationRequest, ctx: Context, f: Finding)
    requires Fires(f, e, req, ctx) && SeverityOf(f) == Deny
    ensures DecisionOf(e, req, ctx).outcome == Deny
  {
    FindingsExactly(e, req, ctx, f);
    WorstIsUpperBound(FindingsOf(e, req, ctx), f);
    WorstExtends(FindingsOf(e, req, ctx), f);
  }

  /** Under a validated policy an evidence risk outside the four words is denied; the
      ranking alone would let it pass any ceiling that is itself unknown. */
  lemma UnknownRiskIsDenied(e: Evaluator, req: EvaluationRequest, ctx: Context)
    requires Policy.Validate(e.policy, e.parseDuration).None?
    requires Policy.RiskRank(req.evidence.risk) == 99
    ensures DecisionOf(e, req, ctx).outcome == Deny
  {
    FiringDenies(e, req, ctx, RiskTooHigh);
  }

  /** Under a validated policy that requires signatures, a bundle that offers a bare public
      key is denied: the policy must list identities and a bare key has none. */
  lemma BareKeyIsDenied(e: Evaluator, req: EvaluationRequest, ctx: Context)
    requires Policy.Validate(e.policy, e.parseDuration).None?
    requires e.policy.signaturesRequired
    requires req.evidence.sigstore.Some? && req.evidence.sigstore.value.x509CertPem == ""
    ensures DecisionOf(e, req, ctx).outcome == Deny
  {
    FiringDenies(e, req, ctx, SigstoreInvalid);
  }

  /** A minimum version that does not parse silently becomes 0.0.0, which every parseable
      version meets; validation excludes exactly this. */
  lemma UnparsableMinimum(p: Policy.Policy, offered: string)
    requires SemVer.Parsed(p.minimumVersion).None?
    ensures VersionMet(p, offered) <==> SemVer.Parsed(offered).Some?
    ensures forall f: string -> Option<int> :: Policy.Validate(p, f).Some?
  {
    if SemVer.Parsed(offered).Some? {
      SemVer.ParsedIsNatural(offered);
    }
  }

  // The signature.

  /** The signature attached to a decision verifies for exactly one claim: that decision's own
      identifier, digest, environment and outcome. */
  lemma SignatureIsForThisDecision(e: Evaluator, req: EvaluationRequest, ctx: Context, c: Signing.Claim)
    requires e.signer.Some? && e.signer.value.secret != ""
    requires Digest.ValidateSHA256(req.subject.digest).None? && ':' !in ctx.decisionId
    requires Signing.Separable(c)
    requires MacSeparates(e, ClaimOf(DecisionOf(e, req, ctx)), c)
    ensures var d := DecisionOf(e, req, ctx);
            Signing.Verify(e.signer.value, e.mac, c, d.signature) <==> c == ClaimOf(d)
  {
    var d := DecisionOf(e, req, ctx);
    OutcomeHasNoColon(FindingsOf(e, req, ctx));
    Signing.SignatureBindsClaim(e.signer.value, e.mac, ClaimOf(d), c);
  }

  lemma OutcomeHasNoColon(fs: seq<Finding>)
    ensures ':' !in OutcomeText(Worst(fs))
  {
    WorstExtends(fs, AdmissionAllowed);
  }

  function ClaimOf(d: Decision): Signing.Claim {
    Signing.Claim(d.decisionId, d.subject.digest, d.environment, OutcomeText(d.outcome))
  }

  /** The MAC is not empty and does not collide on the payloads of the two claims. */
  ghost predicate MacSeparates(e: Evaluator, signed: Signing.Claim, c: Signing.Claim)
    requires e.signer.Some?
  {
    var s := e.signer.value;
    var p, q := Signing.Payload(s.issuer, signed), Signing.Payload(s.issuer, c);
    e.mac(s.secret, p) != "" && (e.mac(s.secret, p) == e.mac(s.secret, q) ==> p == q)
  }
}
