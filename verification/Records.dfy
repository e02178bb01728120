/** The records the gate exchanges and stores. */
module Records {
  import opened Wrappers

  /** Nanoseconds on one time line; zero is Go's zero time, "not set". */
  type Time = int

  const ZERO_TIME: Time := 0
  const DAY: int := 86_400_000_000_000

  /** The `decision` field: four constants, or whatever else a stored record holds. */
  datatype Outcome = Allow | ReassessRequired | ReviewRequired | Deny | Other(text: string)

  function OutcomeText(o: Outcome): string {
    match o
    case Allow => "ALLOW"
    case ReassessRequired => "REASSESS_REQUIRED"
    case ReviewRequired => "REVIEW_REQUIRED"
    case Deny => "DENY"
    case Other(text) => text
  }

  /** The four-point order the evaluator escalates along. */
  function Rank(o: Outcome): nat {
    match o
    case Allow => 0
    case ReassessRequired => 1
    case ReviewRequired => 2
    case Deny => 3
    case Other(_) => 4
  }

  /** One constructor for each reason code the evaluator can emit. */
  datatype Finding =
    | SubjectDigestInvalid
    | EvidenceSubjectMismatch
    | RevocationStateUnavailable
    | DigestRevoked
    | QuarantineStateUnavailable
    | DigestQuarantined
    | EnvironmentDenied
    | AssuranceProviderMissing
    | AssuranceVersionTooOld
    | AssuranceIncomplete
    | AssuranceFailed
    | AssuranceStale
    | SigstoreInvalid
    | DSSEInvalid
    | SignatureUnverified
    | ProvenanceInvalid
    | ProvenanceUnverified
    | RiskTooHigh
    | CapabilityDenied(capability: string)
    | ApprovalRequired(capability: string)
    | AdmissionAllowed

  /** The outcome each code asks for. */
  function SeverityOf(f: Finding): Outcome {
    match f
    case AssuranceVersionTooOld => ReassessRequired
    case AssuranceStale => ReassessRequired
    case ApprovalRequired(_) => ReviewRequired
    case AdmissionAllowed => Allow
    case _ => Deny
  }

  datatype ArtifactSubject = ArtifactSubject(name: string, version: string, digest: string)

  datatype RuntimePolicy = RuntimePolicy(
    artifactDigest: string, decisionId: string, environment: string, policyDigest: string,
    issuedAt: Time, expiresAt: Time,
    allowedCommands: seq<string>, allowWrite: bool, allowNetwork: bool, allowedSecrets: seq<string>,
    timeoutSeconds: int, maxOutputBytes: int)

  datatype Decision = Decision(
    decisionId: string, outcome: Outcome, subject: ArtifactSubject, environment: string,
    policyName: string, policyDigest: string, evaluatedAt: Time, expiresAt: Time,
    issuer: string, keyId: string, signature: string,
    reasons: seq<Finding>, runtimePolicy: Option<RuntimePolicy>)

  datatype Promotion = Promotion(
    id: string, decisionId: string, digest: string, environment: string,
    promotedBy: string, promotedAt: Time, reason: string)

  datatype Revocation = Revocation(
    id: string, digest: string, environment: string, revokedBy: string, revokedAt: Time,
    expiresAt: Option<Time>, reason: string, incidentId: string)

  datatype Quarantine = Quarantine(
    id: string, digest: string, environment: string, quarantinedBy: string, quarantinedAt: Time,
    reason: string, incidentId: string)

  datatype BackupData = BackupData(
    exportedAt: Time, decisions: seq<Decision>, promotions: seq<Promotion>,
    revocations: seq<Revocation>, quarantines: seq<Quarantine>)

  /** Does a record for (digest, env) restrict the wanted digest and environment?
      An empty environment is global. */
  predicate Covers(digest: string, env: string, wantedDigest: string, wantedEnv: string) {
    digest == wantedDigest && (env == "" || env == wantedEnv)
  }
}
