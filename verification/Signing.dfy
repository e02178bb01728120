/** Decision signatures: an HMAC over a colon-joined payload. */
module Signing {
  import opened Text
  import Digest

  datatype DecisionSigner = DecisionSigner(secret: string, issuer: string, keyId: string)

  /** Hexadecimal HMAC-SHA-256 of a message under a secret. */
  type Mac = (string, string) -> string

  /** The four values a signature vouches for. */
  datatype Claim = Claim(decisionId: string, digest: string, environment: string, outcome: string)

  function Payload(issuer: string, c: Claim): string {
    issuer + ":" + (c.decisionId + ":" + (c.digest + (":" + (c.environment + ":" + c.outcome))))
  }

  function Sign(s: DecisionSigner, mac: Mac, c: Claim): string {
    if s.secret == "" then "" else mac(s.secret, Payload(s.issuer, c))
  }

  predicate Verify(s: DecisionSigner, mac: Mac, c: Claim, signature: string) {
    s.secret != "" && signature != "" && signature == Sign(s, mac, c)
  }

  /** A claim whose parts the payload keeps apart: no colon in the identifier or the
      outcome, and a digest of the one accepted form. The environment is free. */
  predicate Separable(c: Claim) {
    ':' !in c.decisionId && Digest.ValidateSHA256(c.digest).None? && ':' !in c.outcome
  }

  lemma StripIssuer(issuer: string, c: Claim, d: Claim)
    requires Payload(issuer, c) == Payload(issuer, d)
    ensures c.decisionId + ":" + (c.digest + (":" + (c.environment + ":" + c.outcome)))
         == d.decisionId + ":" + (d.digest + (":" + (d.environment + ":" + d.outcome)))
  {
    var n := |issuer| + 1;
    assert Payload(issuer, c)[n..] == c.decisionId + ":" + (c.digest + (":" + (c.environment + ":" + c.outcome)));
    assert Payload(issuer, d)[n..] == d.decisionId + ":" + (d.digest + (":" + (d.environment + ":" + d.outcome)));
  }

  /** For one issuer, the payload determines every part of a separable claim, even when
      the environment itself contains colons. */
  lemma PayloadInjective(issuer: string, c: Claim, d: Claim)
    requires Separable(c) && Separable(d)
    requires Payload(issuer, c) == Payload(issuer, d)
    ensures c == d
  {
    StripIssuer(issuer, c, d);
    var x, y := c.environment + ":" + c.outcome, d.environment + ":" + d.outcome;
    CutAtFirst(c.decisionId, c.digest + (":" + x), d.decisionId, d.digest + (":" + y), ':');
    Digest.DigestCut(c.digest, ":" + x, d.digest, ":" + y);
    assert x == (":" + x)[1..] && y == (":" + y)[1..];
    CutAtLast(c.environment, c.outcome, d.environment, d.outcome, ':');
  }

  /** A signature verifies for a separable claim exactly when that claim is the one that
      was signed, as long as the MAC does not collide on the two payloads. */
  lemma SignatureBindsClaim(s: DecisionSigner, mac: Mac, signed: Claim, presented: Claim)
    requires s.secret != "" && mac(s.secret, Payload(s.issuer, signed)) != ""
    requires Separable(signed) && Separable(presented)
    requires mac(s.secret, Payload(s.issuer, signed)) == mac(s.secret, Payload(s.issuer, presented))
             ==> Payload(s.issuer, signed) == Payload(s.issuer, presented)
    ensures Verify(s, mac, presented, Sign(s, mac, signed)) <==> presented == signed
  {
    if Payload(s.issuer, signed) == Payload(s.issuer, presented) {
      PayloadInjective(s.issuer, signed, presented);
    }
  }

  /** Issuers without a colon never share a payload, so it determines the issuer as well. */
  lemma PayloadBindsIssuer(i: string, j: string, c: Claim, d: Claim)
    requires ':' !in i && ':' !in j && Payload(i, c) == Payload(j, d)
    ensures i == j
  {
    var x := c.decisionId + ":" + (c.digest + (":" + (c.environment + ":" + c.outcome)));
    var y := d.decisionId + ":" + (d.digest + (":" + (d.environment + ":" + d.outcome)));
    assert Payload(i, c) == i + [':'] + x && Payload(j, d) == j + [':'] + y;
    CutAtFirst(i, x, j, y, ':');
  }

  /** Whatever the digests: for one issuer, equal payloads have equal outcomes and the same text
      before them, as long as the outcomes hold no colon. */
  lemma PayloadBindsOutcome(issuer: string, c: Claim, d: Claim)
    requires ':' !in c.outcome && ':' !in d.outcome
    ensures Payload(issuer, c) == Payload(issuer, d) <==> c.outcome == d.outcome && Subject(c) == Subject(d)
  {
    assert Payload(issuer, c) == issuer + ":" + (Subject(c) + ":" + c.outcome);
    assert Payload(issuer, d) == issuer + ":" + (Subject(d) + ":" + d.outcome);
    if Payload(issuer, c) == Payload(issuer, d) {
      StripIssuer(issuer, c, d);
      SubjectCut(c, d);
    }
  }

  /** The text of a claim before its outcome. */
  function Subject(c: Claim): string {
    c.decisionId + ":" + c.digest + ":" + c.environment
  }

  lemma SubjectCut(c: Claim, d: Claim)
    requires c.decisionId + ":" + (c.digest + (":" + (c.environment + ":" + c.outcome)))
          == d.decisionId + ":" + (d.digest + (":" + (d.environment + ":" + d.outcome)))
    requires ':' !in c.outcome && ':' !in d.outcome
    ensures c.outcome == d.outcome && Subject(c) == Subject(d)
  {
    assert Subject(c) + ":" + c.outcome == c.decisionId + ":" + (c.digest + (":" + (c.environment + ":" + c.outcome)));
    assert Subject(d) + ":" + d.outcome == d.decisionId + ":" + (d.digest + (":" + (d.environment + ":" + d.outcome)));
    CutAtLast(Subject(c), c.outcome, Subject(d), d.outcome, ':');
  }

  /** So the signature of one decision never passes for another outcome, MAC collisions aside:
      a signed DENY is no ALLOW, even on a malformed digest. */
  lemma SignatureBindsOutcome(s: DecisionSigner, mac: Mac, signed: Claim, presented: Claim)
    requires ':' !in signed.outcome && ':' !in presented.outcome
    requires mac(s.secret, Payload(s.issuer, signed)) == mac(s.secret, Payload(s.issuer, presented))
             ==> Payload(s.issuer, signed) == Payload(s.issuer, presented)
    requires Verify(s, mac, presented, Sign(s, mac, signed))
    ensures presented.outcome == signed.outcome
  {
    PayloadBindsOutcome(s.issuer, signed, presented);
  }

  /** Without the digest check the payload is not injective: a colon can move from the
      digest to the environment. */
  lemma UncheckedDigestsCollide(issuer: string)
    ensures var c := Claim("7f", "sha256:ab", "cd", "DENY");
            var d := Claim("7f", "sha256", "ab:cd", "DENY");
            c != d && Payload(issuer, c) == Payload(issuer, d)
  {
    assert "sha256:ab" + (":" + ("cd" + ":" + "DENY")) == "sha256" + (":" + ("ab:cd" + ":" + "DENY"));
  }
}
