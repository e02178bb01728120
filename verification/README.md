# skgate: a verified model of the admission gate

`skgate` decides whether an artifact digest may enter an environment, logs each decision,
and later lets a promotion through only on the strength of such a decision. This project
models that path in Dafny and proves what it promises: what each evaluation decides, what the
two storage engines hold after any run, and what a promotion that goes through rests on.

`dafny verify dfyconfig.toml` checks everything.

## How the model is laid out

| file | models |
|---|---|
| `Text.dfy`, `Wrappers.dfy` | byte strings (one `char` for each byte), splitting, trimming, decimal printing; `Option` and `Result` |
| `Records.dfy` | decisions, promotions, revocations, quarantines, backups; outcomes and reason codes |
| `SemVer.dfy`, `Digest.dfy`, `Signing.dfy`, `Attestation.dfy`, `Policy.dfy` | the small languages the evaluator relies on |
| `Admission.dfy`, `AdmissionLaws.dfy`, `AdmissionRules.dfy` | the evaluator with its three closures, how its outcome moves, and the rules it amounts to, field by field |
| `LineLog.dfy` | one encoded record per line, read and appended, with torn writes |
| `Ledger.dfy` | the promotion and restriction rules over lists of records |
| `Disk.dfy`, `FileStore.dfy`, `FileLaws.dfy` | the file store: a specification over file texts, the class proved equal to it, and what the operations keep |
| `StoreRuns.dfy`, `Protocol.dfy`, `Evaluations.dfy` | whole runs: of critical sections, of interleaved requests, and where the decisions of a run come from |
| `Tables.dfy`, `SqlStore.dfy`, `SqlLaws.dfy` | the SQL store: statements over keyed tables, the class, and what it keeps |
| `SqlRuns.dfy`, `SqlProvenance.dfy` | whole runs of interleaved statements, and the decisions behind stored promotions |
| `EngineSimulation.dfy` | the two engines side by side |
| `Migrations.dfy` | the schema migration runner |
| `Inventory.dfy`, `Reassess.dfy` | two command-line folds over the decision log |

## What is assumed

* Cryptography, hexadecimal, base64, X.509, duration parsing and policy hashing are functions
  the model is given. `NoCollision` and the collision hypothesis of `SignatureBindsClaim` are
  stated where they are used.
* Records become text through a codec. `LineLog.LineSafe` asks that decoding undoes encoding,
  that an encoding is one line that begins and ends with a visible byte, that no proper prefix of
  an encoding decodes, that two or more cut-off encodings run together do not decode, and that
  what decodes can be encoded again. Encodings of JSON objects meet this: a cut-off object leaves a
  brace or a string open, and the next object can close neither; `BracedIsLineSafe` exhibits a codec
  that meets all of it. In SQL, what a backup decodes to can be encoded again (`Reencodable`). A value the codec cannot represent exactly counts as one
  that cannot be encoded.
* The operating system may refuse to open a log, write only part of a line, or fail to sync a
  line it wrote; each append takes one such fault as a parameter. A restore may also be cut between its
  removals. The database may refuse any
  statement, and then keeps its committed state.
* The clock and the random identifiers are parameters. In `Protocol` the clock never goes back.
* Each public method of one file store is one critical section of its lock, so an interleaving of
  requests is a sequence of steps. An evaluation is four of them: read the clock, read the
  revocation log, read the quarantine log and decide, save.

## What the code does that its documentation does not say

* `FileStore.IsRevoked` filters to the exact environment before it looks for global records, so the
  evaluator is told that a globally revoked digest is not revoked, although revocation is documented
  as failing closed across environments. `RevocationLookup` gives the exact condition, and
  `EvaluatorMissesGlobalRevocation` shows that `Promote`, which scans the log itself, still refuses.
* Where a failed statement aborts its transaction, as in PostgreSQL, the version query against an
  empty database makes every migration run fail (`NeverBootstraps`), although embedded migrations
  are documented as the way the schema is created. `MigrateSucceedsExactly` gives the condition.
* A one-star identity pattern accepts some names too short to hold its two literals
  (`MatchIsGlobUnlessOverlap`, `MatchExceedsGlobExactly`). A pattern with several stars is compared
  literally, except that a star at its end takes any rest (`MatchOtherStars`), so it refuses some glob
  match whatever it is (`GlobImpliesMatchExactly`).
* The SQL `Promote` checks and inserts in separate statements. `StoredUnderRevocationExactly` says
  when a promotion ends up stored under a covering revocation, and `StoredIsBackedExactly` when it ends
  up without its decision. A SQL backup lists its four tables one after another, so it can carry a
  promotion whose decision it missed (`TornBackupJustifiedExactly`).
* A file restore removes the decision log before the promotion log. A crash right between the two leaves
  promotions without decisions (`CutProvenanceExactly`).
* An inventory of decisions on malformed digests can lose an entry (`MalformedDigestsCollide`).
* Reassessment answers ALLOW only under policies that want neither signatures nor provenance
  (`ReassessAllowsExactly`), and it never changes what an earlier decision permits
  (`OldDecisionsStillPromote`).

## Model

| member | source | states |
|---|---|---|
| `LineLog.ReadNDJSON` | internal/store/file.go:349-373 | the scanning loop returns the decoded non-blank lines in order, or the first failure, for every text |
| `LineLog.AppendNDJSON` | internal/store/file.go:332-347 | under every fault an append adds a prefix of the record's line and nothing else; success means the whole line |
| `LineLog.AppendReports` | internal/store/file.go:332-347 | an append reports success if and only if the record encodes and no fault meets it, and each fault lets exactly so many bytes through |
| `LineLog.ReadConcat` | internal/store/file.go:349-373 | text cut after a newline reads piece by piece |
| `LineLog.ReadBack` | internal/store/file.go:332-373 | after any completed appends of lines inside the scanner limit, reading returns exactly those records in order |
| `LineLog.ReadTorn` | internal/store/file.go:332-373 | after a crash cuts the last append at any byte, reading returns the completed records, those plus the last one when only its newline is missing, or an error |
| `LineLog.AppendOutcome` | internal/store/file.go:332-373 | for every fault and every earlier damage, a readable log is the earlier one or the earlier one plus the record, and after a success it is the latter |
| `LineLog.AppendKeepsSound` | internal/store/file.go:332-347 | whatever interrupts appends, the unfinished last line stays a run of cut-off encodings |
| `LineLog.EarlierLinesStay` | internal/store/file.go:349-373 | what complete lines read as stays a prefix of whatever a longer text reads as |
| `LineLog.AppendSeals` | internal/store/file.go:332-347 | a successful append can no longer be read away by anything appended later, even on a damaged file |
| `LineLog.BracedIsLineSafe` | internal/store/file.go:332-373 | a codec with unboundedly many records meets every hypothesis on codecs |
| `Ledger.RefusalExactly` | internal/store/file.go:70-123 | the guards let through exactly the promotions whose first decision with the identifier is an unexpired ALLOW for the same digest and environment, with no covering restriction |
| `Ledger.WhyRefused` | internal/store/file.go:70-123 | each refusal names the first guard that fails |
| `Ledger.FirstMatchAt` | internal/store/file.go:79-85 | the scan finds the decision at the least index with the identifier |
| `Ledger.FirstMatchStays` | internal/store/file.go:79-85 | a first match stays the first match as the log grows |
| `Ledger.RevocationLookup` | internal/store/file.go:165-195 | the filtered lookup implies the intended one, and they agree if and only if no environment is named, the digest is not revoked globally, or it is revoked in that environment too |
| `Ledger.GlobalRevocationWitness` | internal/store/file.go:165-195 | a state in which the two lookups differ |
| `Ledger.UnquarantineExactly` | internal/store/file.go:241-261 | the filter keeps exactly the records whose identifier and digest both differ, each at its own position and in order, clears the digest in every environment, and is idempotent |
| `Ledger.StampingFillsOnlyBlanks` | internal/store/file.go:125-160 | only an empty identifier and a zero time are filled in; every other field of a promotion, revocation or quarantine stays the caller's |
| `Disk.VerdictExactly` | internal/store/file.go:66-123 | a promotion goes through if and only if the three logs it depends on can be read and the promotion rule holds of them |
| `FileStore.FileStore.Promote` | internal/store/file.go:66-132 | the method reaches the specified state and error for every input and fault |
| `FileStore.FileStore.CheckPromotion` | internal/store/file.go:70-123 | the guards, in the order the code tries them, give the specified verdict |
| `FileStore.FileStore.SaveDecision` | internal/store/file.go:54-58 | appends to the decision log and changes no other log |
| `FileStore.FileStore.GetPromotions` | internal/store/file.go:134-151 | returns all promotions, or exactly those of the environment, in order |
| `FileStore.FileStore.Revoke` | internal/store/file.go:153-163 | appends the stamped record to the revocation log and changes no other log; `Ledger.StampingFillsOnlyBlanks` says what stamping does |
| `FileStore.FileStore.IsRevoked` | internal/store/file.go:184-195 | answers for the exact environment only, through the filtering loop |
| `FileStore.FileStore.Quarantine` | internal/store/file.go:197-207 | appends the stamped record to the quarantine log and changes no other log |
| `FileStore.FileStore.IsQuarantined` | internal/store/file.go:228-239 | answers true exactly when a record for the digest is global or for that environment |
| `FileStore.FileStore.Unquarantine` | internal/store/file.go:241-261 | removes the log and appends the survivors until one append fails |
| `FileStore.FileStore.Backup` | internal/store/file.go:263-293 | one document of the four logs, or the first failure |
| `FileStore.FileStore.Restore` | internal/store/file.go:295-330 | replaces the four logs in order until one append fails |
| `FileLaws.UnquarantineOutcome` | internal/store/file.go:241-261 | an interrupted rewrite reads as a prefix of the survivors; a completed one as all of them, and nothing names the target any more |
| `FileLaws.RestoreOutcome` | internal/store/file.go:295-330 | whichever append fails, the readable logs are a prefix of decisions ++ promotions ++ revocations ++ quarantines: a log reads as anything only behind complete ones; a success leaves each readable log whole, and later appends may extend any of them |
| `FileLaws.CutProvenanceExactly` | internal/store/file.go:304-307 | a crash between the removals of a restore leaves only justified promotions if and only if it does not come right after the decision log is removed, or no promotion can be read |
| `FileLaws.BackupThenRestore` | internal/store/file.go:263-330 | restoring a backup over any directory makes its four logs read as the backed-up ones did |
| `FileLaws.BackupExactly` | internal/store/file.go:263-293 | a backup succeeds if and only if all four logs can be read and the document can be encoded, and it carries the four lists |
| `FileLaws.PromoteStores` | internal/store/file.go:66-132 | a promotion that passes its guards without a fault adds exactly its stamped line; a refused one changes nothing and reports its verdict |
| `FileLaws.FailedRewritesChangeNothing` | internal/store/file.go:241-302 | an Unquarantine that cannot read and a Restore that cannot decode change nothing and report it |
| `FileLaws.RestoreKeepsProvenance` | internal/store/file.go:304-329 | a restore of a justified backup, complete or interrupted at an append, leaves only justified promotions |
| `FileLaws.BackupIsJustified` | internal/store/file.go:263-293 | a backup taken from a state with provenance carries it |
| `FileLaws.PromoteKeepsProvenance` | internal/store/file.go:66-132 | a promotion is stored only over a first-match ALLOW for its digest and environment |
| `FileLaws.UnquarantineKeepsOthers` | internal/store/file.go:241-261 | a record the argument does not name survives a successful rewrite |
| `StoreRuns.RunKeepsSound` | internal/store/file.go:54-347 | after any run with any faults the files are as appends leave them |
| `StoreRuns.RevocationWins` | internal/store/file.go:66-163 | in every run, after `Revoke` reported success every promotion that the caller's record covers is refused until a restore removes the revocation log, whenever the ALLOW was taken or saved |
| `StoreRuns.QuarantineWasLifted` | internal/store/file.go:66-261 | between a recorded quarantine and a promotion that goes through and that the caller's record covers, some step lifted it |
| `StoreRuns.RunKeepsProvenance` | internal/store/file.go:54-330 | in every reachable state each readable promotion has a first-match ALLOW for its digest and environment, if restores bring back such states and none is cut right after removing the decisions under readable promotions |
| `StoreRuns.RunWithBackupsKeepsProvenance` | internal/store/file.go:263-330 | the same with restores of backups taken earlier in the run, complete, interrupted at an append, or cut at any other point between removals |
| `Protocol.DiskFollowsOps` | internal/api/server.go:123-248 | to the store, an interleaving of requests is the sequence of its critical sections |
| `Protocol.HistoryExists` | internal/api/server.go:123-248 | every run of requests has a history from every state |
| `Protocol.RevokedIsNeverPromoted` | internal/api/server.go:123-195 | under every interleaving, a promotion request after a covering recorded revocation is refused, whatever evaluations were in flight |
| `Protocol.QuarantineWasLiftedByRequest` | internal/api/server.go:151-248 | under every interleaving, between a recorded quarantine and a promotion it covers that goes through, some request lifted that record |
| `Evaluations.PromotionRestsOnEvaluation` | internal/api/server.go:123-167 | four earlier actions of the same run (begin, the two lookups, save) are one evaluation whose decision is the first of its identifier in the log the promotion reads, for the same digest and environment, made at most 24 hours before; every rule was met, and at the lookups the revocation log was readable and held no record of that digest and environment, and the quarantine log no covering one |
| `Evaluations.RevokedIsDenied` | internal/api/server.go:134-195 | after a recorded revocation of a digest and environment every evaluation of them that looks later saves a DENY, until a restore reaches the log |
| `Evaluations.QuarantinedIsDenied` | internal/api/server.go:134-248 | the same for a covering quarantine, unless some request lifted it before the evaluation read the log |
| `Evaluations.EvaluationSaves` | internal/api/server.go:134-145 | every evaluation of a run saves the decision it reached from its own readings |
| `Protocol.BarredIsDenied` | internal/admission/evaluator.go:100-118 | an evaluation ends in DENY wherever the revocation log is unreadable or holds the digest for that very environment, or the quarantine log is unreadable or holds a covering record |
| `Protocol.AnswersExactly` | internal/store/file.go:184-239 | the store clears a digest for the evaluator exactly when the log can be read and holds no such record |
| `Protocol.RequestsReachTheStore` | internal/api/server.go:151-248 | a request with its required fields has the effect of the store's operation on the caller's record, one without them has none |
| `Evaluations.RunKeepsInvariant` | internal/api/server.go:123-248 | from an empty decision log, in every reachable state each logged decision and each one in flight was reached by the steps of an evaluation of the run, from the clock and the logs as they stood at those steps |
| `Protocol.AllowCanBeSavedAfterRevocation` | internal/api/server.go:134-145 | an evaluation that read the log before a revocation saves, after it, the decision it would have saved without it: an ALLOW if and only if every rule is met by what it had read |
| `Protocol.EvaluatorMissesGlobalRevocation` | internal/admission/evaluator.go:100-108 | a digest revoked globally but not by name is reported as not revoked, and promotion is refused all the same |
| `Admission.Evaluate` | internal/admission/evaluator.go:66-233 | the escalating procedure returns the specified decision, which the rows of `AdmissionRules` pin field by field |
| `AdmissionRules.OutcomeByRules` | internal/admission/evaluator.go:93-200 | DENY exactly where a denial rule over policy, request and store answers is broken; else REVIEW exactly where an approval is missing; else REASSESS exactly where the version or the age is not good enough; ALLOW exactly where every rule is met |
| `AdmissionRules.SubjectAndStoreCodes` | internal/admission/evaluator.go:93-118 | the six subject and store codes are reported exactly under their conditions on digest, evidence and store answers |
| `AdmissionRules.AssuranceCodes` | internal/admission/evaluator.go:120-136 | the environment, provider, completeness and pass codes likewise |
| `AdmissionRules.CurrencyCodes` | internal/admission/evaluator.go:126-142 | the version code exactly when the offered version does not parse or is below the minimum, number by number; the age code exactly when the evidence is undated or too old |
| `AdmissionRules.AttestationCodes` | internal/admission/evaluator.go:144-173 | the three signature codes and the two provenance codes exactly under their conditions |
| `AdmissionRules.RiskCode` | internal/admission/evaluator.go:175-177 | the risk code exactly when the evidence's risk outranks the ceiling |
| `AdmissionRules.CapabilityCodes` | internal/admission/evaluator.go:178-200 | for each capability, the denial and approval codes exactly under their conditions on names and unexpired matching records |
| `AdmissionRules.DecisionFields` | internal/admission/evaluator.go:67-78 | the decision names the request, the policy and the time, expires 24 hours later, carries the signer's names, and an ALLOW carries the policy's own runtime limits |
| `AdmissionRules.SignedText` | internal/admission/evaluator.go:224-228 | the signed text, written out: issuer, identifier, digest, environment and the outcome's word |
| `AdmissionRules.OlderMajorIsTooOld` | internal/admission/evaluator.go:126-130 | under a validated policy a smaller major version is reported and never allowed |
| `AdmissionRules.OtherEvidenceIsDenied` | internal/admission/evaluator.go:96-98 | evidence of another artifact is denied |
| `AdmissionRules.SubSaturates` | internal/admission/evaluator.go:139-139 | the age is the time difference held within 64 bits |
| `Admission.RunChecks` | internal/admission/evaluator.go:93-200 | the procedure's reasons are the firing checks in the order they are made, and its outcome their join |
| `Admission.Draft.Deny` | internal/admission/evaluator.go:79-79 | escalating to DENY keeps the outcome the join of the reasons |
| `Admission.Draft.Review` | internal/admission/evaluator.go:80-85 | escalating to REVIEW_REQUIRED keeps the outcome the join of the reasons |
| `Admission.Draft.Reassess` | internal/admission/evaluator.go:86-91 | escalating to REASSESS_REQUIRED keeps the outcome the join of the reasons |
| `Admission.IsApproved` | internal/admission/evaluator.go:183-195 | the nested search answers true exactly when the capability is approved by name or by an unexpired matching record |
| `AdmissionLaws.FindingsExactly` | internal/admission/evaluator.go:93-200 | no check that fires is missed and none that does not is reported; the rows of `AdmissionRules` say when each fires |
| `AdmissionLaws.OutcomeIsJoin` | internal/admission/evaluator.go:79-91 | the outcome is the least upper bound of what the firing checks ask for, in ALLOW < REASSESS < REVIEW < DENY |
| `AdmissionLaws.AllowExactly` | internal/admission/evaluator.go:201-231 | ALLOW, no check firing, a bound runtime policy, and SKGATE-ALLOW as the only reason are equivalent |
| `AdmissionLaws.OutcomeMonotone` | internal/admission/evaluator.go:137-200 | the outcome never falls when capabilities, denials, approval requirements or time are added, and never rises when approvals are added or the risk ceiling is raised |
| `AdmissionLaws.CapabilitiesAreASet` | internal/admission/evaluator.go:178-200 | permuting or repeating capabilities does not change the outcome |
| `AdmissionLaws.NewerVersionIsNoWorse` | internal/admission/evaluator.go:126-130 | the version check is upward closed |
| `AdmissionLaws.UnknownRiskIsDenied` | internal/admission/evaluator.go:175-177 | under a validated policy a risk word outside the four is denied |
| `AdmissionLaws.BareKeyIsDenied` | internal/admission/evaluator.go:145-149 | under a validated policy that requires signatures, a bundle with a bare public key is denied |
| `AdmissionLaws.UnparsableMinimum` | internal/policy/policy.go:91-93 | an unparsable minimum version would accept every parseable one, and validation refuses it |
| `AdmissionLaws.SignatureIsForThisDecision` | internal/admission/evaluator.go:224-228 | the signature on a decision verifies for its own identifier, digest, environment and outcome and for no other claim |
| `Policy.Validate` | internal/policy/policy.go:78-113 | a policy passes if and only if every one of its ten requirements holds |
| `Policy.RiskRank` | internal/admission/evaluator.go:235-248 | the four words, in any case, rank 1 to 4 in their order, and everything else 99 |
| `Policy.ToLowerAscii` | internal/admission/evaluator.go:236-236 | on ASCII text capitals become small letters and nothing else changes |
| `Digest.ValidateSHA256` | internal/digest/digest.go:10-22 | accepts exactly "sha256:" followed by 64 hexadecimal digits |
| `Digest.DigestCut` | internal/digest/digest.go:10-22 | accepted digests delimit themselves at the head of a text |
| `SemVer.Parse` | internal/semver/semver.go:11-27 | the parsing procedure computes the denotation of the text |
| `SemVer.ParseUndoesPrint` | internal/semver/semver.go:11-27 | parsing undoes canonical printing in the 64-bit range, through outer space, a leading 'v' and a '-' suffix |
| `SemVer.ParsedExactly` | internal/semver/semver.go:11-27 | a text parses if and only if its core is three dot-free non-negative numerals joined by dots |
| `SemVer.Compare` | internal/semver/semver.go:29-41 | the loop returns -1, 0 or 1 by the majors, among equal majors by the minors, among equal minors by the patches |
| `SemVer.BeforeByFirstDifference` | internal/semver/semver.go:29-41 | the order is that of the first component that differs |
| `SemVer.AtoiOfMinus` | internal/semver/semver.go:20-20 | a signed numeral denotes its negative down to the least 64-bit integer and nothing below |
| `SemVer.AtoiBeyondRange` | internal/semver/semver.go:20-20 | a numeral of 2^63 or more is refused |
| `Signing.PayloadInjective` | internal/crypto/signing/signing.go:43-51 | the payload determines identifier, digest, environment and outcome, even when the environment contains colons |
| `Signing.SignatureBindsClaim` | internal/crypto/signing/signing.go:43-59 | a signature verifies for a claim if and only if it is the one that was signed, unless the MAC collides |
| `Signing.PayloadBindsOutcome` | internal/crypto/signing/signing.go:43-51 | whatever the digests, two payloads are equal if and only if the outcomes are equal and so is the text before them |
| `Signing.PayloadBindsIssuer` | internal/crypto/signing/signing.go:47-47 | payloads of two different issuers without colons differ |
| `Signing.SignatureBindsOutcome` | internal/crypto/signing/signing.go:43-59 | a signature never passes for another outcome, even on a malformed digest, unless the MAC collides |
| `Signing.UncheckedDigestsCollide` | internal/crypto/signing/signing.go:47-47 | without the digest check two different claims share a payload |
| `Attestation.PreimageInjective` | internal/crypto/attestation/attestation.go:77-91 | equal DSSE pre-images force equal types and payloads, for all byte strings |
| `Attestation.PreimageExample` | internal/crypto/attestation/attestation.go:90-90 | one pre-image, written out |
| `Attestation.VerifyDSSE` | internal/crypto/attestation/attestation.go:77-111 | accepts if and only if some signature verifies over the pre-image's hash |
| `Attestation.DSSEAcceptedExactly` | internal/crypto/attestation/attestation.go:77-111 | an envelope passes if and only if the key parses and some signature, read as base64, hexadecimal or raw, verifies over the hash of type and payload, read as base64 or raw |
| `Attestation.AcceptedEnvelopeWasSigned` | internal/crypto/attestation/attestation.go:77-111 | an accepted envelope carries a (type, payload) pair the key holder signed |
| `Attestation.VerifySigstore` | internal/crypto/attestation/attestation.go:113-200 | accepts if and only if the material is usable, the signature verifies, and some identity is trusted when identities are listed |
| `Attestation.CertificateAcceptedExactly` | internal/crypto/attestation/attestation.go:117-200 | a bundle with a certificate passes if and only if the certificate parses, is in date, chains up, verifies the bytes of the digest after "sha256:", and names a trusted identity where any are listed |
| `Attestation.BareKeyAcceptedExactly` | internal/crypto/attestation/attestation.go:147-200 | a bundle with a bare key passes if and only if the key parses, verifies those bytes and no identities are listed |
| `Attestation.DigestBytesExactly` | internal/crypto/attestation/attestation.go:166-170 | the verified bytes are the hexadecimal digits after "sha256:" decoded, or the whole text when they do not decode |
| `Attestation.OtherAttestationIsRefused` | internal/crypto/attestation/attestation.go:228-234 | an attestation of another digest, or one that names no origin, is refused |
| `Attestation.FindTrusted` | internal/crypto/attestation/attestation.go:178-195 | the nested search with early exits finds a match if and only if there is one |
| `Attestation.GlobOneStar` | internal/crypto/attestation/attestation.go:218-226 | the recursive glob with one star accepts exactly the names that hold prefix and suffix apart |
| `Attestation.GlobImpliesMatchExactly` | internal/crypto/attestation/attestation.go:202-226 | for every pattern, all glob matches are accepted if and only if it has at most one star |
| `Attestation.GlobImpliesMatch` | internal/crypto/attestation/attestation.go:202-226 | with at most one star, every glob match is accepted |
| `Attestation.MatchIsGlobUnlessOverlap` | internal/crypto/attestation/attestation.go:202-226 | with one star, matching agrees with the glob if and only if the name holds both literals apart or misses one of them |
| `Attestation.MatchExceedsGlobExactly` | internal/crypto/attestation/attestation.go:202-226 | with one star, only glob matches are accepted if and only if no end of the prefix is a beginning of the suffix |
| `Attestation.MatchOtherStars` | internal/crypto/attestation/attestation.go:202-226 | with no star or several, a name is accepted if and only if it is the pattern itself, or the pattern ends in a star and the name starts with the rest of it, read literally |
| `Attestation.MatchImpliesGlob` | internal/crypto/attestation/attestation.go:202-226 | with no star or several, every accepted name is a glob match |
| `Attestation.OverlapIsAccepted` | internal/crypto/attestation/attestation.go:202-226 | where the two literals can overlap, written over one another they are a name that the code accepts and the glob refuses |
| `Attestation.SeveralStars` | internal/crypto/attestation/attestation.go:202-226 | with several stars, the pattern with another byte in place of its first star is a glob match that is refused |
| `SqlStore.SQLStore.SaveDecision` | internal/store/postgres.go:31-42 | inserts unless the identifier is taken, and a conflict is no error |
| `SqlStore.SQLStore.GetDecisions` | internal/store/postgres.go:44-64 | decodes every row in the listed order, and fails exactly when the query or its scan fails or some row does not decode |
| `SqlStore.SQLStore.Promote` | internal/store/postgres.go:66-123 | the method reaches the specified tables and error for every input and failed statement |
| `SqlStore.SQLStore.Revoke` | internal/store/postgres.go:149-159 | inserts the stamped row and refuses a taken key; `Tables.RevocationReadsBack` says what the row holds |
| `Tables.RevocationReadsBack` | internal/store/postgres.go:156-158 | an inserted revocation is found under its key with every field that has a column, the other two blank, and no other row changes |
| `Tables.FailedStatementsChangeNothing` | internal/store/postgres.go:31-244 | a statement the database refuses changes nothing and is reported |
| `SqlStore.SQLStore.IsRevoked` | internal/store/postgres.go:185-193 | true exactly when a row for the digest is global or for that environment |
| `SqlStore.SQLStore.Quarantine` | internal/store/postgres.go:195-205 | inserts the stamped row and refuses a taken key |
| `SqlStore.SQLStore.IsQuarantined` | internal/store/postgres.go:231-239 | true exactly when a row for the digest is global or for that environment |
| `SqlStore.SQLStore.Unquarantine` | internal/store/postgres.go:241-244 | deletes exactly the rows whose identifier or digest is the argument |
| `SqlStore.SQLStore.Backup` | internal/store/postgres.go:246-272 | documents the four tables in some row order, and gets as far as encoding exactly when no listing fails and every decision row decodes |
| `SqlStore.SQLStore.Restore` | internal/store/postgres.go:274-311 | all or nothing: succeeds if and only if the document decodes, no statement fails and no identifier repeats; success leaves exactly the backup, any error the old tables |
| `SqlStore.SQLStore.InsertRows` | internal/store/postgres.go:289-309 | one insert loop succeeds if and only if keys are distinct and no insert is refused, and builds the keyed table |
| `Tables.PromoteIsNotAtomic` | internal/store/postgres.go:98-122 | a revocation may commit between the checks and the insert, and the promotion is then stored under it |
| `Tables.ByKeyHolds` | internal/store/postgres.go:289-309 | with distinct keys, every inserted record is found under its key |
| `SqlRuns.RunKeepsCanonical` | internal/store/postgres.go:31-311 | in every reachable state, whatever statements fail, each row is what the statements store |
| `SqlRuns.ReachableBackupRestores` | internal/store/postgres.go:246-311 | a backup of any reachable state restores to exactly that state over any other |
| `SqlRuns.RevokedIsRefused` | internal/store/postgres.go:66-193 | after a committed revocation the verdict on every promotion it covers, taken in one state, is a refusal until a restore commits, whichever statements fail |
| `SqlRuns.StoredAfterRevocationWasInFlight` | internal/store/postgres.go:66-193 | a promotion stored after a covering revocation was committed, with no restore committed since, had counted revocations before it: none that is looked up later is ever stored |
| `SqlRuns.RevokedExactlyByCommit` | internal/store/postgres.go:149-193 | restores aside, a covering row is there later if and only if it was there before or a statement in between committed one |
| `SqlRuns.StoredUnderRevocationExactly` | internal/store/postgres.go:66-122 | under every interleaving a stored promotion passed its three queries in order, and it is stored under a covering revocation if and only if one was committed after its revocation query, with no restore in between |
| `SqlRuns.StoredAfterQuarantineWasInFlight` | internal/store/postgres.go:66-244 | a promotion stored after a covering quarantine was committed had counted quarantines before it, or that row was lifted before it counted |
| `SqlRuns.StoredUnderQuarantineExactly` | internal/store/postgres.go:106-122 | a stored promotion is stored under a covering quarantine if and only if one was committed after its quarantine query, with nothing lifted or restored in between |
| `SqlProvenance.StoredIsBackedExactly` | internal/store/postgres.go:66-122 | a stored promotion has its ALLOW decision behind it unless a restore commits between its first query and its insert; then if and only if the last restore brought a fitting decision or one was committed after it |
| `SqlProvenance.RestoreCanOrphan` | internal/store/postgres.go:274-311 | a run in which a restore leaves a stored promotion without its decision |
| `SqlProvenance.BackedExactlyByCommit` | internal/store/postgres.go:31-42 | committed restores aside, a promotion's decision is there later if and only if it was there before or a statement in between committed it |
| `SqlProvenance.RunKeepsProvenance` | internal/store/postgres.go:31-311 | in every reachable state every stored promotion has its decision behind it, if restores load such states and keep apart from promotions in flight |
| `SqlProvenance.ListedBacking` | internal/store/postgres.go:44-64 | in a listing of the decision table the first match of an identifier is its row |
| `SqlProvenance.TornBackupJustifiedExactly` | internal/store/postgres.go:246-272 | a backup that lists decisions in one state and promotions in a later one carries every promotion's decision if and only if none of them was committed in between |
| `SqlRuns.VerdictIsThreeQueries` | internal/store/postgres.go:66-114 | the verdict of the whole call is its three queries passing without a failure |
| `SqlLaws.SaveKeepsCanonical` | internal/store/postgres.go:31-42 | every decision row stays the encoding of a decision with the row's key |
| `SqlLaws.LoadedIsCanonical` | internal/store/postgres.go:288-309 | a restore leaves canonical rows when its decisions can be encoded |
| `SqlLaws.BackupThenRestoreSql` | internal/store/postgres.go:246-311 | a SQL backup, its rows in any order, restores to exactly the same tables over any others |
| `EngineSimulation.SameVerdict` | internal/store/postgres.go:66-123 | related states give the same promotion verdict, with the same reason, at the same clock reading |
| `EngineSimulation.LookupsCompared` | internal/store/postgres.go:185-239 | quarantine lookups agree; revocation lookups agree if and only if no environment is named, the digest is not revoked globally, or it is revoked there too |
| `EngineSimulation.SaveSimulates` | internal/store/postgres.go:31-42 | the keyed decision table stays the first-occurrence map of the log |
| `EngineSimulation.RevokeSimulates` | internal/store/postgres.go:149-159 | the insert succeeds if and only if the log has no record with that identifier, and then the tables still hold what the log holds |
| `EngineSimulation.QuarantineSimulates` | internal/store/postgres.go:195-205 | the same for quarantines |
| `EngineSimulation.PromoteSimulates` | internal/store/postgres.go:66-123 | with a fresh identifier both engines store the promotion or both refuse it |
| `EngineSimulation.UnquarantineSimulates` | internal/store/postgres.go:241-244 | the DELETE drops exactly the rows of the records the file rewrite drops |
| `EngineSimulation.FileBackupIntoSql` | internal/store/postgres.go:274-311 | a file backup restores into SQL if and only if no identifier repeats in a log, and then all verdicts and quarantine lookups are as before |
| `EngineSimulation.RunSimulates` | internal/store/postgres.go:31-311 | the relation holds after every sequential run with fresh identifiers |
| `EngineSimulation.EnginesAgree` | internal/store/postgres.go:31-311 | started empty, the two engines give every promotion the same verdict after every such run |
| `Migrations.Database.Migrate` | internal/store/migrations.go:81-107 | the transactional loop reaches the specified state under every fault |
| `Migrations.PrefixKept` | internal/store/migrations.go:81-107 | recorded versions stay a prefix of the list after every turn, committed or failed |
| `Migrations.SuccessRecordsAll` | internal/store/migrations.go:81-107 | success records every version and has run each script once, in order |
| `Migrations.EachScriptOnce` | internal/store/migrations.go:95-102 | over any number of runs failing anywhere, no script is committed twice |
| `Migrations.UpToDateIsFixed` | internal/store/migrations.go:87-92 | on an up-to-date database a further run changes nothing, and fails exactly when a begin or a version query fails |
| `Migrations.SpoiledTurnIsReported` | internal/store/migrations.go:83-104 | a version whose begin, script, insert or commit fails is not recorded, nor is any after it, and the run reports failure |
| `Migrations.MigrateSucceedsExactly` | internal/store/migrations.go:81-107 | without faults a run succeeds if and only if the version table exists, or transactions survive a failed query and the first script creates it |
| `Migrations.NeverBootstraps` | internal/store/migrations.go:87-98 | where a failed query aborts its transaction, no number of runs initialises an empty database |
| `Migrations.ShippedListBootstraps` | internal/store/migrations.go:14-79 | the shipped list takes an empty database to version 2 where transactions survive |
| `Inventory.BuildIndex` | cmd/skgate/main.go:463-477 | under each key the loop leaves an item that says what the last passing decision says: name, version, digest, environment, outcome and time |
| `Inventory.Inventory` | cmd/skgate/main.go:438-485 | the list holds each (digest, environment) pair exactly once, with the name, version, outcome and time of its last decision, if and only if no two listed pairs share a key |
| `Inventory.ValidDigestsNeverCollide` | cmd/skgate/main.go:468-468 | pairs with valid digests never share a key, whatever the environments contain |
| `Inventory.MalformedDigestsCollide` | cmd/skgate/main.go:468-468 | two pairs with malformed digests that do |
| `Reassess.RunReassess` | cmd/skgate/main.go:370-394 | each logged decision is answered once, in order, against the restrictions as they stood, and the answers are appended |
| `Reassess.AnswerIsForItsDecision` | cmd/skgate/main.go:377-390 | each answer has its old decision's artifact and environment and is a DENY wherever the store's logs bar that digest there |
| `Reassess.AnswersAt` | cmd/skgate/main.go:376-394 | the answers come one for each old decision, in its place |
| `Reassess.SavesAppend` | cmd/skgate/main.go:391-392 | without faults the log then reads as the old decisions followed by the answers |
| `Reassess.ReassessAllowsExactly` | cmd/skgate/main.go:377-390 | under a validated policy the answer is ALLOW if and only if the digest is well formed and unrestricted, the environment supported, neither signatures nor provenance required, and the evidence not yet too old |
| `Reassess.OldDecisionsStillPromote` | cmd/skgate/main.go:376-394 | reassessment changes no promotion verdict under an earlier decision |

## Left out

- Cryptographic primitives, PEM, X.509 chains, base64, hexadecimal and JSON: library calls, given as functions with stated hypotheses.
- Unicode: white space and letter case outside ASCII, except the one non-ASCII letter that lower-cases into a risk word.
- HTTP: headers, bodies, authentication, roles, logging and the request counters; only the order of evaluate, save and respond and the handlers' required fields are kept.
- `runAffected`, `trust`, `audit`, `auth` and the store factory: loading, aliasing or easy folds.
- Several file stores over one directory: their locks are separate objects, so the critical sections no longer exclude each other.
- SQL text, column lengths and types (timestamps are kept exactly), connection pooling; row order is any order, not only by time.
- A commit whose outcome the client cannot learn: a failed commit counts as not committed.
- Message texts of reasons and errors; the schema version and evidence digest fields that are constant or never read back.
- `FileStore.GetRevocations`, `FileStore.GetQuarantines` and the SQL listings by environment: the file versions are modelled as parts of the lookups, the SQL ones only for whole tables.
- Evaluations.PromotionRestsOnEvaluation: starts from an empty decision log, and a Restore in the run brings back a backup of the run's own; the log carries no proof of where its decisions came from.
- Protocol.RevokedIsNeverPromoted: for the file store only; for the SQL store see `SqlRuns.StoredUnderRevocationExactly`.
- SqlStore.SQLStore.Backup: its four listings see one state; listings in different states are `SqlProvenance.TornBackupJustifiedExactly`.
- LineLog.ReadNDJSON: a file that exists can be opened and read; a failing disk read is not modelled.
- FileStore.FileStore.Unquarantine: the removal of the log succeeds; the code ignores its error and would then append to the old log.
- FileStore.FileStore.Restore: the four removals succeed; the code ignores their errors and would then append to the old logs.
- EngineSimulation.RunSimulates: for sequential runs without faults, with lines inside the scanner limit and fresh record identifiers; `RevokeSimulates` and `FileBackupIntoSql` show what a repeated identifier does.
- AdmissionLaws.OutcomeMonotone: the answers of verifiers and store are fixed, so time here does not expire certificates.
- Attestation.VerifySigstore: the trust roots are folded into the chain check, which answers true when none are configured.
