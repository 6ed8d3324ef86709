/**
 * The cryptography both signature layers rely on, as an ideal scheme: a
 * signature made with an alias's private key over some bytes verifies against
 * that alias's certificate and those bytes, and nothing else verifies. A trust
 * store is the set of aliases whose certificates are loaded.
 */
module Crypto {
  import opened Wire

  type TrustStore = set<string>

  /** Signing `bytes` with the private key of `alias`. */
  function Sign(alias: string, bytes: Message): (sig: Signature)
    ensures Verify(alias, bytes, ISig(sig))
  {
    Signature(alias, bytes)
  }

  /** Checking a signature item against the certificate of `alias`. */
  predicate Verify(alias: string, bytes: Message, sig: Item)
  {
    sig.ISig? && sig.sig.signer == alias && sig.sig.bytes == bytes
  }

  /** A signature that verifies was made by `Sign` with that alias over those bytes. */
  lemma VerifyOnlySigned(alias: string, bytes: Message, sig: Item)
    requires Verify(alias, bytes, sig)
    ensures sig == ISig(Sign(alias, bytes))
  {
  }
}
