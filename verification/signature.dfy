/**
 * The shared webhook signature gate of the edge functions
 * (`verifyAutomationSignature` in the functions' shared auth helper).
 *
 * HMAC-SHA256 (RFC 2104 over FIPS 180-4) is not modelled: it enters as an
 * opaque function `Mac(key, message)` over the UTF-8 encodings of its
 * arguments, returning a 32-byte digest. What is modelled is the
 * accept/reject logic and the hex spelling of the digest.
 */
module Signature {
  import opened Wrappers
  import Hex
  import Text

  /** HMAC-SHA256 of a message (second argument) under a key (first argument). */
  type Mac = (string, string) -> Hex.Digest

  /** The header value a correct caller sends: lower-case hex of the digest. */
  function Expected(body: string, secret: string, mac: Mac): (sig: string)
    ensures |sig| == 64
    ensures Hex.Decode(sig) == Some(mac(secret, body))
  {
    Hex.DecodeEncode(mac(secret, body));
    Hex.Encode(mac(secret, body))
  }

  /**
   * Accepts a request iff the `x-signature` header is present and non-empty,
   * the secret is configured and non-empty, and the header equals the
   * lower-case hex digest of the raw body under the secret.
   */
  function VerifyAutomationSignature(body: string, signature: Option<string>, secret: Option<string>, mac: Mac): (ok: bool)
    ensures !Truthy(signature) ==> !ok
    ensures !Truthy(secret) ==> !ok
    ensures ok <==> Truthy(secret) && signature == Some(Expected(body, secret.value, mac))
    ensures ok ==> Hex.Decode(signature.value) == Some(mac(secret.value, body))
  {
    if !Truthy(signature) then false
    else if !Truthy(secret) then false
    else signature.value == Expected(body, secret.value, mac)
  }

  /** The upper-case spelling of a digest with a letter differs from the encoding. */
  lemma UpperDiffers(bs: seq<Hex.byte>)
    requires Hex.HasLetterNibble(bs)
    ensures Text.Upper(Hex.Encode(bs)) != Hex.Encode(bs)
  {
    var i :| 0 <= i < |bs| && bs[i] % 16 >= 10;
    Hex.LetterAt(bs, i);
    Text.UpperDiffersAt(Hex.Encode(bs), 2 * i + 1);
  }

  /**
   * Comparison is strict string equality: the upper-case spelling of the
   * correct digest is rejected whenever that digest has a letter in it.
   */
  lemma UppercaseRejected(body: string, secret: string, mac: Mac)
    requires secret != ""
    requires Hex.HasLetterNibble(mac(secret, body))
    ensures !VerifyAutomationSignature(body, Some(Text.Upper(Expected(body, secret, mac))), Some(secret), mac)
  {
    UpperDiffers(mac(secret, body));
  }

  /** A signature accepted for one body and secret is the hex of that body's digest (no other header passes). */
  lemma AcceptedSignatureIsUnique(body: string, secret: Option<string>, mac: Mac, s1: string, s2: string)
    requires VerifyAutomationSignature(body, Some(s1), secret, mac)
    requires VerifyAutomationSignature(body, Some(s2), secret, mac)
    ensures s1 == s2
  {
  }
}
