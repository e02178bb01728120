/** Admission policies and the checks a policy passes before it is used. */
module Policy {
  import opened Wrappers
  import opened Text
  import SemVer

  const SCHEMA_VERSION: string := "1.0.0"

  datatype Policy = Policy(
    schemaVersion: string, name: string, environments: seq<string>,
    provider: string, minimumVersion: string, maximumAge: string, requireComplete: bool,
    signaturesRequired: bool, trustedIdentities: seq<string>,
    denied: seq<string>, approvalRequired: seq<string>,
    provenanceRequired: bool, riskMaximum: string,
    allowedCommands: seq<string>, allowedSecrets: seq<string>,
    allowWorkspaceWrite: bool, allowNetwork: bool, timeoutSeconds: int, maxOutputBytes: int)

  datatype PolicyError =
    | BadSchemaVersion | NameRequired | EnvironmentRequired | ProviderRequired
    | BadMinimumVersion | BadMaximumAge | BadRisk | IdentitiesRequired | BadTimeout | BadOutputLimit

  /** strings.ToLower as far as ASCII words can tell: besides the ASCII letters, the one
      other letter that lower-cases to an ASCII letter of a risk word is U+0130, the two
      bytes C4 B0, which becomes 'i'. */
  function ToLower(s: string): string {
    if s == "" then ""
    else if |s| >= 2 && s[0] == 0xC4 as char && s[1] == 0xB0 as char then "i" + ToLower(s[2..])
    else [if 'A' <= s[0] <= 'Z' then s[0] + 32 as char else s[0]] + ToLower(s[1..])
  }

  /** On ASCII text each capital becomes its small letter and nothing else changes. */
  lemma {:induction false} ToLowerAscii(s: string)
    requires forall k | 0 <= k < |s| :: s[k] < 128 as char
    ensures var r := ToLower(s);
            |r| == |s| && forall k | 0 <= k < |s| ::
              if 'A' <= s[k] <= 'Z' then r[k] as int - 'a' as int == s[k] as int - 'A' as int else r[k] == s[k]
  {
    if s != "" {
      assert forall k | 0 <= k < |s| - 1 :: s[1..][k] == s[k + 1];
      ToLowerAscii(s[1..]);
      var r := ToLower(s);
      assert forall k | 0 < k < |s| :: r[k] == ToLower(s[1..])[k - 1] && s[k] == s[1..][k - 1];
    }
  }

  const RISK_WORDS: seq<string> := ["low", "medium", "high", "critical"]

  function PositionOf(w: string, words: seq<string>): (k: nat)
    ensures k <= |words|
    ensures k < |words| <==> w in words
    ensures k < |words| ==> words[k] == w
  {
    if words == [] || words[0] == w then 0 else 1 + PositionOf(w, words[1..])
  }

  /** The position of the word among the four, counted from 1, whatever its letter case; 99
      for anything else. */
  function RiskRank(s: string): (r: nat)
    ensures 1 <= r <= 4 || r == 99
    ensures r <= 4 <==> ToLower(s) in RISK_WORDS
    ensures r == 1 <==> ToLower(s) == "low"
    ensures r == 2 <==> ToLower(s) == "medium"
    ensures r == 3 <==> ToLower(s) == "high"
    ensures r == 4 <==> ToLower(s) == "critical"
  {
    var k := PositionOf(ToLower(s), RISK_WORDS);
    assert RISK_WORDS[0] == "low" && RISK_WORDS[1] == "medium";
    assert RISK_WORDS[2] == "high" && RISK_WORDS[3] == "critical";
    if k < |RISK_WORDS| then k + 1 else 99
  }

  /** Exactly the policies that pass name themselves, an environment and a provider, give the
      evaluator thresholds that parse, a known ceiling and positive limits, and list
      identities wherever signatures are required. */
  function Validate(p: Policy, parseDuration: string -> Option<int>): (err: Option<PolicyError>)
    ensures err.None? <==>
              && p.schemaVersion == "1.0.0"
              && !AllSpace(p.name) && p.environments != [] && p.provider != ""
              && SemVer.Parsed(p.minimumVersion).Some?
              && (p.maximumAge == "" || parseDuration(p.maximumAge).Some?)
              && RiskRank(p.riskMaximum) <= 4
              && (p.signaturesRequired ==> |p.trustedIdentities| > 0)
              && p.timeoutSeconds > 0 && p.maxOutputBytes > 0
  {
    TrimIsEmptyExactly(p.name);
    if p.schemaVersion != SCHEMA_VERSION then Some(BadSchemaVersion)
    else if TrimSpace(p.name) == "" then Some(NameRequired)
    else if |p.environments| == 0 then Some(EnvironmentRequired)
    else if p.provider == "" then Some(ProviderRequired)
    else if SemVer.Parsed(p.minimumVersion).None? then Some(BadMinimumVersion)
    else if p.maximumAge != "" && parseDuration(p.maximumAge).None? then Some(BadMaximumAge)
    else if ToLower(p.riskMaximum) !in RISK_WORDS then Some(BadRisk)
    else if p.signaturesRequired && |p.trustedIdentities| == 0 then Some(IdentitiesRequired)
    else if p.timeoutSeconds <= 0 then Some(BadTimeout)
    else if p.maxOutputBytes <= 0 then Some(BadOutputLimit)
    else None
  }
}
