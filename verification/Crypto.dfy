/**
 Cryptography as symbolic terms. A wrap opens only with the private half of
 the key it was made for; a sealed secret opens only with the same DEK,
 nonce and associated data (the AEAD contract of section 2.8 of RFC 8439).
 */
module Crypto {
  import opened Base

  /** An age key pair, named by its public half. */
  datatype Key = NodeKey(id: nat) | EndpointKey(endpoint: Endpoint)

  /** A data-encryption key. A request draws at most one per group, so the
      request's tick and the group name identify it. */
  datatype Dek = Dek(tick: nat, group: Name)

  /** A DEK encrypted to one key. */
  datatype Wrap = Wrap(dek: Dek, to: Key)

  /** An AEAD ciphertext. */
  datatype Sealed = Sealed(dek: Dek, aad: Bytes, nonce: nat, plain: Bytes)

  function Unwrap(w: Wrap, key: Key): Option<Dek> {
    if w.to == key then Some(w.dek) else None
  }

  function Decrypt(dek: Dek, aad: Bytes, nonce: nat, c: Sealed): Option<Bytes> {
    if c.dek == dek && c.aad == aad && c.nonce == nonce then Some(c.plain) else None
  }
}
