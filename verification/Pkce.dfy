/** Proof keys for code exchange (RFC 7636). */
module Pkce {
  import opened Prelude
  import opened Issuers
  import Base64

  /** The challenge methods a request may name; an empty one means plain. */
  predicate ValidChallengeMethod(name: string) {
    name == "" || name == "plain" || name == "S256"
  }

  predicate IsUnreserved(c: char) {
    'A' <= c <= 'Z' || 'a' <= c <= 'z' || '0' <= c <= '9' || c == '-' || c == '.' || c == '_' || c == '~'
  }

  /** The verifier grammar of section 4.1 of RFC 7636. */
  predicate IsVerifier(v: string) {
    43 <= |v| <= 128 && forall i :: 0 <= i < |v| ==> IsUnreserved(v[i])
  }

  method ValidVerifier(v: string) returns (ok: bool)
    ensures ok <==> IsVerifier(v)
  {
    if |v| < 43 || |v| > 128 { return false; }
    for i := 0 to |v|
      invariant forall j :: 0 <= j < i ==> IsUnreserved(v[j])
    {
      if !IsUnreserved(v[i]) { return false; }
    }
    return true;
  }

  function S256Challenge(pl: Platform, verifier: string): string
    requires ProperPlatform(pl)
  {
    Base64.Encode(pl.sha256(verifier))
  }

  /** The verifier proves the challenge. */
  predicate Proves(pl: Platform, challenge: string, name: string, verifier: string)
    requires ProperPlatform(pl)
  {
    && IsVerifier(verifier)
    && (match name
        case "S256" => S256Challenge(pl, verifier) == challenge
        case "plain" => verifier == challenge
        case "" => verifier == challenge
        case _ => false)
  }

  method VerifyPKCE(pl: Platform, challenge: string, name: string, verifier: string) returns (ok: bool)
    requires ProperPlatform(pl)
    ensures ok <==> Proves(pl, challenge, name, verifier)
  {
    var valid := ValidVerifier(verifier);
    if !valid { return false; }
    var derived;
    if name == "S256" {
      derived := S256Challenge(pl, verifier);
    } else if name == "plain" || name == "" {
      derived := verifier;
    } else {
      return false;
    }
    return |derived| == |challenge| && derived == challenge;
  }

  /** A verifier proves an S256 challenge only if the challenge decodes to its hash; and the
      challenge made from a verifier is proved by it exactly if it is well formed. */
  lemma S256Proof(pl: Platform, challenge: string, verifier: string)
    requires ProperPlatform(pl)
    ensures Proves(pl, challenge, "S256", verifier) ==>
              Base64.Decode(challenge) == Some(pl.sha256(verifier))
    ensures Proves(pl, S256Challenge(pl, verifier), "S256", verifier) <==> IsVerifier(verifier)
  {
    Base64.RoundTrip(pl.sha256(verifier));
  }

  /** A plain challenge has at most one verifier, and has one only if it is a verifier. */
  lemma PlainProof(pl: Platform, challenge: string, name: string, verifier: string)
    requires ProperPlatform(pl) && (name == "" || name == "plain")
    ensures Proves(pl, challenge, name, verifier) <==> verifier == challenge && IsVerifier(challenge)
  {
  }

  const UNRESERVED: string := UPPER + LOWER + "0123456789-._~"

  /** The verifiers are the texts of 43 to 128 unreserved characters. */
  lemma VerifierExactly(v: string)
    ensures IsVerifier(v) <==> 43 <= |v| <= 128 && forall i :: 0 <= i < |v| ==> v[i] in UNRESERVED
  {
    forall c: char ensures IsUnreserved(c) <==> c in UNRESERVED {
      UnreservedExactly(c);
    }
    hide IsUnreserved;
  }

  lemma UnreservedExactly(c: char)
    ensures IsUnreserved(c) <==> c in UNRESERVED
  {
    Letters(c);
    assert c in "0123456789-._~" <==> '0' <= c <= '9' || c == '-' || c == '.' || c == '_' || c == '~';
  }
}
