/** Verification of signed evidence: the DSSE pre-image, the search over signatures, and
    the search for a trusted signer identity. */
module Attestation {
  import opened Wrappers
  import opened Text

  type Key = string

  datatype Certificate = Certificate(
    notBefore: int, notAfter: int, key: Key,
    emails: seq<string>, uris: seq<string>, dnsNames: seq<string>, commonName: string)

  /** The cryptographic and encoding library, as the functions the program calls. */
  datatype Crypto = Crypto(
    sha256: string -> string,
    base64: string -> Option<string>,
    hex: string -> Option<string>,
    parseKey: string -> Option<Key>,
    parseCertificate: string -> Option<Certificate>,
    fulcioChain: Certificate -> bool,
    githubChain: Certificate -> bool,
    verify: (Key, string, string) -> bool)

  datatype DSSEEnvelope = DSSEEnvelope(payload: string, payloadType: string, signatures: seq<string>)

  datatype SigstoreBundle = SigstoreBundle(publicKeyPem: string, x509CertPem: string, signature: string)

  datatype GitHubAttestation = GitHubAttestation(
    builderId: string, subjectDigest: string, repository: string, certificate: string)

  // The DSSE pre-image.

  /** PAE of the DSSE v1 protocol, section "Signature Definition". */
  function Preimage(payloadType: string, payload: string): string {
    "DSSEv1 " + (Decimal(|payloadType|) + " " + (payloadType + (" " + (Decimal(|payload|) + " " + payload))))
  }

  /** A length-prefixed field is self-delimiting. */
  lemma FieldCut(s: string, x: string, t: string, y: string)
    requires Decimal(|s|) + " " + (s + x) == Decimal(|t|) + " " + (t + y)
    ensures s == t && x == y
  {
    CutAtFirst(Decimal(|s|), s + x, Decimal(|t|), t + y, ' ');
    DecimalInjective(|s|, |t|);
    assert (s + x)[..|s|] == s && (t + y)[..|s|] == t;
    assert (s + x)[|s|..] == x && (t + y)[|s|..] == y;
  }

  /** Equal pre-images come from equal types and equal payloads, whatever bytes they hold. */
  lemma PreimageInjective(t1: string, p1: string, t2: string, p2: string)
    requires Preimage(t1, p1) == Preimage(t2, p2)
    ensures t1 == t2 && p1 == p2
  {
    var x1, x2 := Decimal(|p1|) + " " + p1, Decimal(|p2|) + " " + p2;
    var r1, r2 := Decimal(|t1|) + " " + (t1 + (" " + x1)), Decimal(|t2|) + " " + (t2 + (" " + x2));
    assert r1 == Preimage(t1, p1)[7..] && r2 == Preimage(t2, p2)[7..];
    FieldCut(t1, " " + x1, t2, " " + x2);
    assert x1 == (" " + x1)[1..] && x2 == (" " + x2)[1..];
    assert p1 + "" == p1 && p2 + "" == p2;
    FieldCut(p1, "", p2, "");
  }

  // DSSE envelopes.

  /** The payload bytes: decoded base64, or the raw text when it is not base64. */
  function PayloadBytes(crypto: Crypto, env: DSSEEnvelope): string {
    crypto.base64(env.payload).GetOr(env.payload)
  }

  function SignatureBytes(crypto: Crypto, sig: string): string {
    crypto.base64(sig).GetOr(crypto.hex(sig).GetOr(sig))
  }

  predicate DSSEAccepted(crypto: Crypto, env: DSSEEnvelope, publicKeyPem: string) {
    var key := crypto.parseKey(publicKeyPem);
    var hash := crypto.sha256(Preimage(env.payloadType, PayloadBytes(crypto, env)));
    key.Some? && exists sig | sig in env.signatures :: crypto.verify(key.value, hash, SignatureBytes(crypto, sig))
  }

  method VerifyDSSE(crypto: Crypto, env: DSSEEnvelope, publicKeyPem: string) returns (ok: bool)
    ensures ok <==> DSSEAccepted(crypto, env, publicKeyPem)
  {
    if |env.signatures| == 0 {
      return false;
    }
    var payloadBytes := env.payload;
    var decoded := crypto.base64(env.payload);
    if decoded.Some? {
      payloadBytes := decoded.value;
    }
    var hash := crypto.sha256(Preimage(env.payloadType, payloadBytes));
    var key := crypto.parseKey(publicKeyPem);
    if key.None? {
      return false;
    }
    for i := 0 to |env.signatures|
      invariant forall k | 0 <= k < i :: !crypto.verify(key.value, hash, SignatureBytes(crypto, env.signatures[k]))
    {
      var entry := env.signatures[i];
      var sigBytes := crypto.base64(entry);
      if sigBytes.None? {
        sigBytes := crypto.hex(entry);
        if sigBytes.None? {
          sigBytes := Some(entry);
        }
      }
      if crypto.verify(key.value, hash, sigBytes.value) {
        assert entry in env.signatures && sigBytes.value == SignatureBytes(crypto, entry);
        return true;
      }
    }
    return false;
  }

  /** The pairs of payload type and payload bytes a key holder signed, as the hashes it signed. */
  ghost predicate SignsOnly(crypto: Crypto, key: Key, signed: set<(string, string)>) {
    forall hash, sig | crypto.verify(key, hash, sig) ::
      exists m | m in signed :: hash == crypto.sha256(Preimage(m.0, m.1))
  }

  /** No two of these messages share a hash with the presented one without being it. */
  ghost predicate NoCollision(crypto: Crypto, signed: set<(string, string)>, t: string, p: string) {
    forall m | m in signed :: crypto.sha256(Preimage(m.0, m.1)) == crypto.sha256(Preimage(t, p))
                              ==> Preimage(m.0, m.1) == Preimage(t, p)
  }

  /** An accepted envelope carries exactly a (type, payload) pair the key holder signed. */
  lemma AcceptedEnvelopeWasSigned(crypto: Crypto, env: DSSEEnvelope, pem: string, signed: set<(string, string)>)
    requires DSSEAccepted(crypto, env, pem)
    requires SignsOnly(crypto, crypto.parseKey(pem).value, signed)
    requires NoCollision(crypto, signed, env.payloadType, PayloadBytes(crypto, env))
    ensures (env.payloadType, PayloadBytes(crypto, env)) in signed
  {
    var t, p := env.payloadType, PayloadBytes(crypto, env);
    var hash := crypto.sha256(Preimage(t, p));
    var sig :| sig in env.signatures && crypto.verify(crypto.parseKey(pem).value, hash, SignatureBytes(crypto, sig));
    var m :| m in signed && hash == crypto.sha256(Preimage(m.0, m.1));
    PreimageInjective(m.0, m.1, t, p);
    assert m == (t, p);
  }

  // Signer identities.

  function PathMatch(pattern: string, name: string): bool {
    var parts := Split(pattern, '*');
    if '*' in pattern && |parts| == 2
    then HasPrefix(name, parts[0]) && HasSuffix(name, parts[1])
    else pattern == name
  }

  function MatchIdentity(certId: string, trustedId: string): bool {
    || certId == trustedId
    || (HasSuffix(trustedId, "*") && HasPrefix(certId, trustedId[..|trustedId| - 1]))
    || PathMatch(trustedId, certId)
  }

  /** The reference: a glob in which every '*' stands for any run of bytes. */
  predicate Glob(pattern: string, name: string)
    decreases |pattern|, |name|
  {
    if pattern == "" then name == ""
    else if pattern[0] == '*' then Glob(pattern[1..], name) || (name != "" && Glob(pattern, name[1..]))
    else name != "" && name[0] == pattern[0] && Glob(pattern[1..], name[1..])
  }

  /** A literal head of a pattern is matched byte for byte. */
  lemma {:induction false} GlobLiteral(head: string, pattern: string, name: string)
    requires '*' !in head
    ensures Glob(head + pattern, name) <==> head <= name && Glob(pattern, name[|head|..])
  {
    if head == "" {
      assert head + pattern == pattern && name[0..] == name;
    } else {
      assert (head + pattern)[1..] == head[1..] + pattern;
      if name != "" && name[0] == head[0] {
        GlobLiteral(head[1..], pattern, name[1..]);
        if head <= name {
          assert head[1..] <= name[1..];
        }
        if head[1..] <= name[1..] {
          assert head == [head[0]] + head[1..];
          assert name[1..][|head| - 1..] == name[|head|..];
        }
      }
    }
  }

  lemma GlobExact(pattern: string, name: string)
    requires '*' !in pattern
    ensures Glob(pattern, name) <==> pattern == name
  {
    GlobLiteral(pattern, "", name);
    assert pattern + "" == pattern;
  }

  /** A star followed by a literal tail matches exactly the names that end in that tail. */
  lemma {:induction false} GlobStarLiteral(tail: string, name: string)
    requires '*' !in tail
    ensures Glob("*" + tail, name) <==> HasSuffix(name, tail)
  {
    assert ("*" + tail)[1..] == tail;
    GlobExact(tail, name);
    if name != "" {
      GlobStarLiteral(tail, name[1..]);
      if |tail| < |name| {
        assert name[1..][|name| - 1 - |tail|..] == name[|name| - |tail|..];
      }
    }
  }

  /** One star matches exactly the names long enough to hold the two literals apart. */
  lemma GlobOneStar(p: string, s: string, name: string)
    requires '*' !in p && '*' !in s
    ensures Glob(p + ("*" + s), name) <==> |p| + |s| <= |name| && HasPrefix(name, p) && HasSuffix(name, s)
  {
    GlobLiteral(p, "*" + s, name);
    if p <= name {
      var rest := name[|p|..];
      GlobStarLiteral(s, rest);
      if |s| <= |rest| {
        assert rest[|rest| - |s|..] == name[|name| - |s|..];
      }
    }
  }

  /** A star alone takes whatever is left. */
  lemma {:induction false} GlobStarAny(name: string)
    ensures Glob("*", name)
  {
    if name != "" {
      GlobStarAny(name[1..]);
    }
  }

  /** A pattern, read literally, is one of the names it matches, with anything after a
      trailing star. */
  lemma {:induction false} GlobOfItself(head: string, tail: string, name: string)
    requires Glob(tail, name)
    ensures Glob(head + tail, head + name)
  {
    if head == "" {
      assert head + tail == tail && head + name == name;
    } else {
      var pattern, whole := head + tail, head + name;
      assert pattern[1..] == head[1..] + tail && whole[1..] == head[1..] + name;
      GlobOfItself(head[1..], tail, name);
      if pattern[0] == '*' {
        GlobSkip(pattern, whole);
      }
    }
  }

  /** A leading star may take one byte more. */
  lemma GlobSkip(pattern: string, name: string)
    requires pattern != "" && pattern[0] == '*' && name != ""
    requires Glob(pattern[1..], name[1..])
    ensures Glob(pattern, name)
  {
    assert Glob(pattern, name[1..]);
  }

  /** When the pattern ends in its one star, the star is the whole tail. */
  lemma TrailingStar(p: string, s: string)
    requires '*' !in p && '*' !in s
    requires HasSuffix(p + ("*" + s), "*")
    ensures s == "" && (p + ("*" + s))[..|p + ("*" + s)| - 1] == p
  {
    var pattern := p + ("*" + s);
    var head := pattern[..|pattern| - 1];
    assert pattern == head + ['*'] + "";
    assert pattern == p + ['*'] + s;
    CutAtLast(head, "", p, s, '*');
  }

  lemma PathMatchOneStar(p: string, s: string, name: string)
    requires '*' !in p && '*' !in s
    ensures PathMatch(p + ("*" + s), name) <==> HasPrefix(name, p) && HasSuffix(name, s)
  {
    var pattern := p + ("*" + s);
    assert pattern == p + ['*'] + s;
    SplitAtOnly(p, s, '*');
    assert pattern[|p|] == '*';
  }

  /** MatchIdentity on a pattern with one star: the two tests may overlap. */
  lemma MatchOneStar(p: string, s: string, name: string)
    requires '*' !in p && '*' !in s
    ensures MatchIdentity(name, p + ("*" + s)) <==> HasPrefix(name, p) && HasSuffix(name, s)
  {
    var pattern := p + ("*" + s);
    PathMatchOneStar(p, s, name);
    if HasSuffix(pattern, "*") {
      TrailingStar(p, s);
    }
    if name == pattern {
      assert pattern[..|p|] == p && pattern[|pattern| - |s|..] == s;
    }
  }

  /** With at most one star, whatever the glob accepts is accepted. */
  lemma GlobImpliesMatch(p: string, s: string, star: bool, name: string)
    requires '*' !in p && '*' !in s
    ensures Glob(if star then p + ("*" + s) else p, name) ==> MatchIdentity(name, if star then p + ("*" + s) else p)
  {
    if star {
      GlobOneStar(p, s, name);
      MatchOneStar(p, s, name);
    } else {
      GlobExact(p, name);
    }
  }

  /** With one star the two agree exactly on the names that hold prefix and suffix apart;
      on a shorter name only the overlapping tests can accept. */
  lemma MatchIsGlobUnlessOverlap(p: string, s: string, name: string)
    requires '*' !in p && '*' !in s
    ensures (MatchIdentity(name, p + ("*" + s)) <==> Glob(p + ("*" + s), name))
       <==> |p| + |s| <= |name| || !HasPrefix(name, p) || !HasSuffix(name, s)
  {
    GlobOneStar(p, s, name);
    MatchOneStar(p, s, name);
  }

  /** Some end of the prefix is also a beginning of the suffix. */
  ghost predicate Overlap(p: string, s: string) {
    exists k | 1 <= k <= |p| && k <= |s| :: p[|p| - k..] == s[..k]
  }

  /** A one-star pattern accepts a name the glob refuses exactly when its two literals can
      overlap. */
  lemma MatchExceedsGlobExactly(p: string, s: string)
    requires '*' !in p && '*' !in s
    ensures (forall name :: MatchIdentity(name, p + ("*" + s)) ==> Glob(p + ("*" + s), name)) <==> !Overlap(p, s)
  {
    if Overlap(p, s) {
      var k :| 1 <= k <= |p| && k <= |s| && p[|p| - k..] == s[..k];
      OverlapIsAccepted(p, s, k);
    } else {
      forall name | MatchIdentity(name, p + ("*" + s))
        ensures Glob(p + ("*" + s), name)
      {
        MatchOneStar(p, s, name);
        GlobOneStar(p, s, name);
        if |name| < |p| + |s| {
          ShortNameOverlaps(p, s, name);
        }
      }
    }
  }

  /** Written over one another, the two literals are a name that only the code accepts. */
  lemma OverlapIsAccepted(p: string, s: string, k: nat)
    requires '*' !in p && '*' !in s
    requires 1 <= k <= |p| && k <= |s| && p[|p| - k..] == s[..k]
    ensures MatchIdentity(p + s[k..], p + ("*" + s)) && !Glob(p + ("*" + s), p + s[k..])
  {
    var name := p + s[k..];
    EndsInSuffix(p, s, k);
    MatchOneStar(p, s, name);
    GlobOneStar(p, s, name);
  }

  lemma EndsInSuffix(p: string, s: string, k: nat)
    requires k <= |p| && k <= |s| && p[|p| - k..] == s[..k]
    ensures HasPrefix(p + s[k..], p) && HasSuffix(p + s[k..], s)
  {
    var name, n := p + s[k..], |p| - k;
    assert s == s[..k] + s[k..];
    assert name[n..] == p[n..] + s[k..];
  }

  lemma ShortNameOverlaps(p: string, s: string, name: string)
    requires HasPrefix(name, p) && HasSuffix(name, s) && |name| < |p| + |s|
    ensures Overlap(p, s)
  {
    var k, n := |p| + |s| - |name|, |name| - |s|;
    assert p == name[..|p|] && s == name[n..];
    assert p[|p| - k..] == name[n..|p|] == s[..k];
  }

  /** Number of stars in a pattern. */
  function Stars(pattern: string): nat {
    if pattern == "" then 0 else (if pattern[0] == '*' then 1 else 0) + Stars(pattern[1..])
  }

  lemma {:induction false} SplitCountsStars(pattern: string)
    ensures |Split(pattern, '*')| == Stars(pattern) + 1
    decreases |pattern|
  {
    var i := IndexOf(pattern, '*');
    StarsSkip(pattern, i);
    if i < |pattern| {
      SplitCountsStars(pattern[i + 1..]);
      assert pattern[i..][1..] == pattern[i + 1..];
    }
  }

  lemma {:induction false} StarsSkip(pattern: string, i: nat)
    requires i <= |pattern| && '*' !in pattern[..i]
    ensures Stars(pattern) == Stars(pattern[i..])
  {
    if i == 0 {
      assert pattern[0..] == pattern;
    } else {
      assert pattern[..i][0] == pattern[0];
      assert pattern[1..][..i - 1] == pattern[..i][1..];
      StarsSkip(pattern[1..], i - 1);
      assert pattern[1..][i - 1..] == pattern[i..];
    }
  }

  lemma {:induction false} NoStars(pattern: string)
    ensures Stars(pattern) == 0 <==> '*' !in pattern
  {
    if pattern != "" {
      assert pattern == [pattern[0]] + pattern[1..];
      NoStars(pattern[1..]);
    }
  }

  /** A pattern with stars, cut at its first one. */
  lemma FirstStar(pattern: string) returns (head: string, tail: string)
    requires Stars(pattern) >= 1
    ensures pattern == head + ("*" + tail) && '*' !in head && Stars(tail) == Stars(pattern) - 1
  {
    NoStars(pattern);
    var i := IndexOf(pattern, '*');
    head, tail := pattern[..i], pattern[i + 1..];
    StarsSkip(pattern, i);
    assert pattern[i..][1..] == tail;
    assert pattern == head + ("*" + tail);
  }

  /** Without stars or with several, a pattern is compared literally, except that a star at
      its end still takes any rest. */
  lemma MatchOtherStars(pattern: string, name: string)
    requires Stars(pattern) != 1
    ensures MatchIdentity(name, pattern)
       <==> name == pattern || (HasSuffix(pattern, "*") && HasPrefix(name, pattern[..|pattern| - 1]))
  {
    SplitCountsStars(pattern);
  }

  /** Every name the glob accepts is accepted exactly when the pattern has at most one star. */
  lemma GlobImpliesMatchExactly(pattern: string)
    ensures (forall name :: Glob(pattern, name) ==> MatchIdentity(name, pattern)) <==> Stars(pattern) <= 1
  {
    if Stars(pattern) <= 1 {
      forall name | Glob(pattern, name)
        ensures MatchIdentity(name, pattern)
      {
        FewStars(pattern, name);
      }
    } else {
      var name := SeveralStars(pattern);
    }
  }

  lemma FewStars(pattern: string, name: string)
    requires Stars(pattern) <= 1 && Glob(pattern, name)
    ensures MatchIdentity(name, pattern)
  {
    NoStars(pattern);
    if Stars(pattern) == 0 {
      GlobImpliesMatch(pattern, "", false, name);
    } else {
      var p, s := FirstStar(pattern);
      NoStars(s);
      GlobImpliesMatch(p, s, true, name);
    }
  }

  /** With several stars, the pattern with another byte in place of its first star is a glob
      match that is refused. */
  lemma SeveralStars(pattern: string) returns (name: string)
    requires Stars(pattern) >= 2
    ensures Glob(pattern, name) && !MatchIdentity(name, pattern)
  {
    var head, tail := FirstStar(pattern);
    var rest := "?" + tail;
    name := head + rest;
    GlobOfItself(tail, "", "");
    assert tail + "" == tail && ("*" + tail)[1..] == tail && rest[1..] == tail;
    assert Glob("*" + tail, rest[1..]);
    assert name[|head|..] == rest && head <= name;
    GlobLiteral(head, "*" + tail, name);
    assert name[|head|] == '?' && pattern[|head|] == '*' && |tail| > 0;
    MatchOtherStars(pattern, name);
  }

  /** Every accepted name is a glob match when the pattern has no star or several; the
      one-star overlap above is the only way past the glob. */
  lemma MatchImpliesGlob(pattern: string, name: string)
    requires Stars(pattern) != 1
    requires MatchIdentity(name, pattern)
    ensures Glob(pattern, name)
  {
    SplitCountsStars(pattern);
    if name == pattern {
      GlobOfItself(pattern, "", "");
      assert pattern + "" == pattern;
    } else {
      var head := pattern[..|pattern| - 1];
      assert pattern == head + "*";
      var rest := name[|head|..];
      assert name == head + rest;
      GlobStarAny(rest);
      GlobOfItself(head, "*", rest);
    }
  }

  // Sigstore bundles and GitHub attestations.

  /** The identities a certificate names, in the order they are tried. */
  function Identities(cert: Certificate): seq<string> {
    cert.emails + cert.uris + cert.dnsNames + if cert.commonName != "" then [cert.commonName] else []
  }

  function DigestBytes(crypto: Crypto, digest: string): string {
    crypto.hex(if HasPrefix(digest, "sha256:") then digest[7..] else digest).GetOr(digest)
  }

  /** The certificate of a bundle, when it is presented, in date and chained. */
  function UsableCertificate(crypto: Crypto, bundle: SigstoreBundle, now: int): Option<Certificate> {
    var cert := crypto.parseCertificate(bundle.x509CertPem);
    if bundle.x509CertPem != "" && cert.Some? && cert.value.notBefore <= now <= cert.value.notAfter
       && crypto.fulcioChain(cert.value)
    then cert else None
  }

  /** Some identity of the signer matches some trusted pattern. */
  predicate SomeIdentityTrusted(ids: seq<string>, trusted: seq<string>) {
    exists id, t | id in ids && t in trusted :: MatchIdentity(id, t)
  }

  predicate SigstoreAccepted(crypto: Crypto, bundle: SigstoreBundle, digest: string, trusted: seq<string>, now: int) {
    var cert := UsableCertificate(crypto, bundle, now);
    var key := if bundle.x509CertPem == "" && bundle.publicKeyPem != "" then crypto.parseKey(bundle.publicKeyPem)
               else if cert.Some? then Some(cert.value.key) else None;
    && key.Some?
    && crypto.verify(key.value, DigestBytes(crypto, digest), SignatureBytes(crypto, bundle.signature))
    && (trusted == [] || (cert.Some? && SomeIdentityTrusted(Identities(cert.value), trusted)))
  }

  /** The nested search with its early exits. */
  method FindTrusted(ids: seq<string>, trusted: seq<string>) returns (matched: bool)
    ensures matched <==> SomeIdentityTrusted(ids, trusted)
  {
    matched := false;
    for i := 0 to |ids|
      invariant !matched
      invariant forall k, j | 0 <= k < i && 0 <= j < |trusted| :: !MatchIdentity(ids[k], trusted[j])
    {
      for j := 0 to |trusted|
        invariant !matched
        invariant forall k | 0 <= k < j :: !MatchIdentity(ids[i], trusted[k])
      {
        if MatchIdentity(ids[i], trusted[j]) {
          matched := true;
          break;
        }
      }
      if matched {
        break;
      }
    }
  }

  method VerifySigstore(crypto: Crypto, bundle: SigstoreBundle, digest: string, trusted: seq<string>, now: int)
    returns (ok: bool)
    ensures ok <==> SigstoreAccepted(crypto, bundle, digest, trusted, now)
  {
    var key := "";
    var identities := [];
    if bundle.x509CertPem != "" {
      var cert := crypto.parseCertificate(bundle.x509CertPem);
      if cert.None? {
        return false;
      }
      if now < cert.value.notBefore || now > cert.value.notAfter {
        return false;
      }
      if !crypto.fulcioChain(cert.value) {
        return false;
      }
      key := cert.value.key;
      identities := identities + cert.value.emails;
      for i := 0 to |cert.value.uris|
        invariant identities == cert.value.emails + cert.value.uris[..i]
      {
        identities := identities + [cert.value.uris[i]];
      }
      identities := identities + cert.value.dnsNames;
      if cert.value.commonName != "" {
        identities := identities + [cert.value.commonName];
      }
      assert identities == Identities(cert.value);
    } else if bundle.publicKeyPem != "" {
      var parsed := crypto.parseKey(bundle.publicKeyPem);
      if parsed.None? {
        return false;
      }
      key := parsed.value;
    } else {
      return false;
    }
    if !crypto.verify(key, DigestBytes(crypto, digest), SignatureBytes(crypto, bundle.signature)) {
      return false;
    }
    if |trusted| > 0 {
      if |identities| == 0 {
        return false;
      }
      ok := FindTrusted(identities, trusted);
      return ok;
    }
    return true;
  }

  predicate GitHubAccepted(crypto: Crypto, att: GitHubAttestation, expected: string) {
    && att.subjectDigest == expected
    && (att.builderId != "" || att.repository != "")
    && (att.certificate != "" ==>
          crypto.parseCertificate(att.certificate).Some?
          && crypto.githubChain(crypto.parseCertificate(att.certificate).value))
  }

  // What acceptance comes down to.

  /** One pre-image written out: lengths are decimal byte counts, single spaces part the fields. */
  lemma PreimageExample()
    ensures Preimage("t", "p q") == "DSSEv1 1 t 3 p q"
  {
    assert Decimal(1) == "1" && Decimal(3) == "3";
    assert "3" + " " + "p q" == "3 p q";
    assert "t" + (" " + "3 p q") == "t 3 p q";
    assert "1" + " " + "t 3 p q" == "1 t 3 p q";
    assert "DSSEv1 " + "1 t 3 p q" == "DSSEv1 1 t 3 p q";
  }

  /** A signature text is read as base64, else as hexadecimal, else as it is. */
  ghost predicate ReadsAs(crypto: Crypto, text: string, bytes: string) {
    || crypto.base64(text) == Some(bytes)
    || (crypto.base64(text) == None && crypto.hex(text) == Some(bytes))
    || (crypto.base64(text) == None && crypto.hex(text) == None && bytes == text)
  }

  /** A payload text is read as base64, else as it is. */
  ghost predicate PayloadReadsAs(crypto: Crypto, text: string, bytes: string) {
    crypto.base64(text) == Some(bytes) || (crypto.base64(text) == None && bytes == text)
  }

  /** An envelope is accepted exactly when the key parses and one of its signatures, as read,
      verifies over the hash of the type and payload, as read. */
  lemma DSSEAcceptedExactly(crypto: Crypto, env: DSSEEnvelope, pem: string)
    ensures DSSEAccepted(crypto, env, pem)
       <==> exists key, payload, sig, bytes ::
              && crypto.parseKey(pem) == Some(key) && PayloadReadsAs(crypto, env.payload, payload)
              && sig in env.signatures && ReadsAs(crypto, sig, bytes)
              && crypto.verify(key, crypto.sha256(Preimage(env.payloadType, payload)), bytes)
  {
    var payload := PayloadBytes(crypto, env);
    assert PayloadReadsAs(crypto, env.payload, payload);
    forall sig
      ensures ReadsAs(crypto, sig, SignatureBytes(crypto, sig))
    {
    }
  }

  /** The bytes a digest stands for: those after "sha256:" decoded, or the text itself when they
      are not hexadecimal. */
  lemma DigestBytesExactly(crypto: Crypto, hexDigits: string)
    ensures crypto.hex(hexDigits).Some? ==> DigestBytes(crypto, "sha256:" + hexDigits) == crypto.hex(hexDigits).value
    ensures crypto.hex(hexDigits).None? ==> DigestBytes(crypto, "sha256:" + hexDigits) == "sha256:" + hexDigits
  {
    assert ("sha256:" + hexDigits)[7..] == hexDigits;
  }

  /** The certificate names the identity: as an address, a URI, a host or its common name. */
  ghost predicate Names(cert: Certificate, id: string) {
    id in cert.emails || id in cert.uris || id in cert.dnsNames || (id == cert.commonName && id != "")
  }

  ghost predicate NamesTrusted(cert: Certificate, trusted: seq<string>) {
    exists id, t :: Names(cert, id) && t in trusted && MatchIdentity(id, t)
  }

  lemma TrustedExactly(cert: Certificate, trusted: seq<string>)
    ensures SomeIdentityTrusted(Identities(cert), trusted) <==> NamesTrusted(cert, trusted)
  {
    if id, t :| Names(cert, id) && t in trusted && MatchIdentity(id, t) {
      assert id in Identities(cert);
    }
    if id, t :| id in Identities(cert) && t in trusted && MatchIdentity(id, t) {
      assert Names(cert, id);
    }
  }

  /** The certificate is in date, chains up, verifies the bytes, and names a trusted identity
      where any are listed. */
  ghost predicate Vouches(crypto: Crypto, cert: Certificate, data: string, bytes: string, trusted: seq<string>,
                          now: int)
  {
    && cert.notBefore <= now && now <= cert.notAfter && crypto.fulcioChain(cert)
    && crypto.verify(cert.key, data, bytes)
    && (trusted == [] || NamesTrusted(cert, trusted))
  }

  /** A bundle with a certificate is accepted exactly when the certificate parses and vouches for
      the digest's bytes with the bundle's signature. */
  lemma CertificateAcceptedExactly(crypto: Crypto, bundle: SigstoreBundle, hexDigits: string, trusted: seq<string>,
                                   now: int)
    requires bundle.x509CertPem != "" && crypto.hex(hexDigits).Some?
    ensures SigstoreAccepted(crypto, bundle, "sha256:" + hexDigits, trusted, now)
       <==> exists bytes ::
              && ReadsAs(crypto, bundle.signature, bytes) && crypto.parseCertificate(bundle.x509CertPem).Some?
              && Vouches(crypto, crypto.parseCertificate(bundle.x509CertPem).value, crypto.hex(hexDigits).value, bytes,
                         trusted, now)
  {
    DigestBytesExactly(crypto, hexDigits);
    var bytes := SignatureBytes(crypto, bundle.signature);
    assert ReadsAs(crypto, bundle.signature, bytes);
    var cert := crypto.parseCertificate(bundle.x509CertPem);
    if cert.Some? {
      TrustedExactly(cert.value, trusted);
    }
  }

  /** A bundle with a bare key is accepted exactly when no identities are listed and the key
      verifies the digest's bytes; a bundle with neither is refused. */
  lemma BareKeyAcceptedExactly(crypto: Crypto, bundle: SigstoreBundle, hexDigits: string, trusted: seq<string>,
                               now: int)
    requires bundle.x509CertPem == "" && crypto.hex(hexDigits).Some?
    ensures SigstoreAccepted(crypto, bundle, "sha256:" + hexDigits, trusted, now)
       <==> exists key, bytes ::
              && bundle.publicKeyPem != "" && crypto.parseKey(bundle.publicKeyPem) == Some(key)
              && ReadsAs(crypto, bundle.signature, bytes)
              && crypto.verify(key, crypto.hex(hexDigits).value, bytes) && trusted == []
  {
    DigestBytesExactly(crypto, hexDigits);
    assert ReadsAs(crypto, bundle.signature, SignatureBytes(crypto, bundle.signature));
  }

  /** An attestation of another artifact is refused, and so is one that names no origin. */
  lemma OtherAttestationIsRefused(crypto: Crypto, att: GitHubAttestation, expected: string)
    requires att.subjectDigest != expected || (att.builderId == "" && att.repository == "")
    ensures !GitHubAccepted(crypto, att, expected)
  {
  }
}
