/** The only digest form the gate accepts: "sha256:" and 64 hexadecimal digits. */
module Digest {
  import opened Wrappers
  import opened Text

  datatype DigestError = NotSha256Form | WrongLength | NotHex

  const PREFIX: string := "sha256:"

  predicate IsHexDigit(c: char) {
    IsDigit(c) || 'a' <= c <= 'f' || 'A' <= c <= 'F'
  }

  /** encoding/hex.DecodeString succeeds exactly on an even number of hex digits. */
  predicate IsHex(s: string) {
    |s| % 2 == 0 && forall c | c in s :: IsHexDigit(c)
  }

  function ValidateSHA256(v: string): (err: Option<DigestError>)
    ensures err.None? <==> WellFormed(v)
  {
    if !HasPrefix(v, PREFIX) then Some(NotSha256Form)
    else
      var raw := v[|PREFIX|..];
      if |raw| != 64 then Some(WrongLength)
      else if !IsHex(raw) then Some(NotHex)
      else None
  }

  /** A well-formed digest has one length, so a text that starts with it can be cut. */
  ghost predicate WellFormed(v: string) {
    && |v| == 71
    && v[..7] == "sha256:"
    && forall k | 7 <= k < 71 :: IsHexDigit(v[k])
  }

  /** Well-formed digests are self-delimiting at the head of a text. */
  lemma DigestCut(d: string, x: string, e: string, y: string)
    requires ValidateSHA256(d).None? && ValidateSHA256(e).None?
    requires d + x == e + y
    ensures d == e && x == y
  {
    assert (d + x)[..71] == d && (e + y)[..71] == e;
    assert (d + x)[71..] == x && (e + y)[71..] == y;
  }
}
