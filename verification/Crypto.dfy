/** The cryptographic provider, as the functions the crypto crate calls, and the DEK wrapping built on them. */
module Crypto {
  import opened Basics

  type Key = k: Bytes | |k| == 32 witness seq(32, _ => 0 as byte)

  type Nonce = n: Bytes | |n| == 12 witness seq(12, _ => 0 as byte)

  datatype GcmInput = GcmInput(key: Key, nonce: Nonce, aad: string, plaintext: Bytes)

  datatype Sealed = Sealed(nonce: Nonce, ciphertext: Bytes, tag: Bytes)

  datatype Provider = Provider(
    sha: string -> Digest,
    shaBytes: Bytes -> Digest,
    encrypt: GcmInput -> (Bytes, Bytes),
    decrypt: (Key, Nonce, string, Bytes, Bytes) -> Option<Bytes>,
    pbkdf2: (string, Bytes, nat) -> Digest)

  /**
   What was sealed opens again: AES-256-GCM keeps lengths, makes 16-byte tags, and decryption undoes
   encryption (sections 7.1 and 7.2 of NIST SP 800-38D).
   */
  ghost predicate Correct(p: Provider, record: set<GcmInput>) {
    forall i | i in record ::
      var (ct, tag) := p.encrypt(i);
      && |ct| == |i.plaintext| && |tag| == 16
      && p.decrypt(i.key, i.nonce, i.aad, ct, tag) == Some(i.plaintext)
  }

  /** Ideal authenticity: only what is in the record of sealed inputs ever decrypts. */
  ghost predicate Authentic(p: Provider, record: set<GcmInput>) {
    forall key, nonce, aad, ct, tag {:trigger p.decrypt(key, nonce, aad, ct, tag)} ::
      var r := p.decrypt(key, nonce, aad, ct, tag);
      r.Some? ==> GcmInput(key, nonce, aad, r.value) in record
  }

  /** The SHA-256 of a file. */
  function ContentSha(p: Provider, content: Bytes): Digest {
    p.shaBytes(content)
  }

  /** `aead::seal` with the nonce it drew. */
  function Seal(p: Provider, key: Key, nonce: Nonce, aad: string, plaintext: Bytes): Sealed {
    var (ct, tag) := p.encrypt(GcmInput(key, nonce, aad, plaintext));
    Sealed(nonce, ct, tag)
  }

  /** `aead::open`. */
  function Open(p: Provider, key: Key, aad: string, s: Sealed): Option<Bytes> {
    p.decrypt(key, s.nonce, aad, s.ciphertext, s.tag)
  }

  // ----- KEK: nonce(12) | tag(16) | ciphertext(32) --------------------------------

  /** `wrap_dek`, piece by piece. */
  method WrapDek(p: Provider, kek: Key, dek: Key, nonce: Nonce) returns (out: Bytes)
    ensures out == Wrapped(p, kek, dek, nonce)
    ensures var (ct, tag) := p.encrypt(GcmInput(kek, nonce, "", dek)); out == nonce + tag + ct
  {
    var sealed := Seal(p, kek, nonce, "", dek);
    out := [];
    out := out + sealed.nonce;
    out := out + sealed.tag;
    out := out + sealed.ciphertext;
  }

  function Wrapped(p: Provider, kek: Key, dek: Key, nonce: Nonce): Bytes {
    var s := Seal(p, kek, nonce, "", dek);
    s.nonce + s.tag + s.ciphertext
  }

  /** `unwrap_dek`: exactly sixty bytes, cut back into the three pieces. */
  function Unwrap(p: Provider, kek: Key, wrapped: Bytes): Option<Key> {
    if |wrapped| != 60 then None
    else
      var pt := Open(p, kek, "", Sealed(wrapped[..12], wrapped[28..], wrapped[12..28]));
      if pt.None? || |pt.value| != 32 then None else pt
  }

  /** Unwrapping undoes wrapping. */
  lemma UnwrapWrapped(p: Provider, kek: Key, dek: Key, nonce: Nonce, record: set<GcmInput>)
    requires Correct(p, record) && GcmInput(kek, nonce, "", dek) in record
    ensures |Wrapped(p, kek, dek, nonce)| == 60
    ensures Unwrap(p, kek, Wrapped(p, kek, dek, nonce)) == Some(dek)
  {
    var s := Seal(p, kek, nonce, "", dek);
    var w := Wrapped(p, kek, dek, nonce);
    assert w[..12] == s.nonce && w[12..28] == s.tag && w[28..] == s.ciphertext;
  }

  /** Under ideal encryption whatever unwraps was wrapped: the bytes are the layout of a recorded DEK. */
  lemma UnwrapAuthentic(p: Provider, kek: Key, wrapped: Bytes, record: set<GcmInput>)
    requires Authentic(p, record)
    ensures var r := Unwrap(p, kek, wrapped);
      r.Some? ==> |wrapped| == 60 && GcmInput(kek, wrapped[..12], "", r.value) in record
  {
  }
}
