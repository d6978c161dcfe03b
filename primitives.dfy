/**
 * The library primitives the core calls but does not implement: AES-GCM
 * (NIST SP 800-38D), gzip (RFC 1952) and SHA-256 (FIPS 180-4).
 *
 * Each is a function value supplied by the caller. What the core relies on is
 * stated as a ghost predicate (`AeadSound`, `CodecSound`) that the lemmas take
 * as a hypothesis; SHA-256's 32-byte output is carried by its result type.
 */
module Primitives {
  import opened Streams

  /** Go's AES-GCM uses the standard 12-byte nonce and 16-byte tag. */
  const NonceSize: nat := 12
  const TagSize: nat := 16

  /** An AES key: AES-128, AES-192 or AES-256. */
  type AesKey = k: Bytes | |k| == 16 || |k| == 24 || |k| == 32
    witness [0, 0, 0, 0, 0, 0, 0, 0, 0, 0, 0, 0, 0, 0, 0, 0]

  type Nonce = n: Bytes | |n| == NonceSize
    witness [0, 0, 0, 0, 0, 0, 0, 0, 0, 0, 0, 0]

  /** A SHA-256 digest. */
  type Digest = d: Bytes | |d| == 32
    witness [0, 0, 0, 0, 0, 0, 0, 0, 0, 0, 0, 0, 0, 0, 0, 0,
             0, 0, 0, 0, 0, 0, 0, 0, 0, 0, 0, 0, 0, 0, 0, 0]

  /** An authenticated cipher: `seal` returns ciphertext || tag, `open` checks and decrypts. */
  datatype Aead = Aead(seal: (AesKey, Nonce, Bytes) -> Bytes, open: (AesKey, Nonce, Bytes) -> Option<Bytes>)

  /** What GCM guarantees: opening what was sealed under the same key and nonce gives the plaintext back,
      and sealing appends a tag of TagSize bytes. */
  ghost predicate AeadSound(g: Aead) {
    forall k: AesKey, n: Nonce, p: Bytes ::
      g.open(k, n, g.seal(k, n, p)) == Some(p) && |g.seal(k, n, p)| == |p| + TagSize
  }

  /** A compressor and its decompressor (None for a malformed container). The decompressor reads
      as it goes: `corruptWithin(b)` says that it stops with a header or stream error somewhere
      within the bytes b, before it would ask for any byte after them. */
  datatype Codec = Codec(compress: Bytes -> Bytes, decompress: Bytes -> Option<Bytes>, corruptWithin: Bytes -> bool)

  ghost predicate CodecSound(c: Codec) {
    forall x: Bytes :: c.decompress(c.compress(x)) == Some(x)
  }

  /** The primitives the transform pipeline uses. */
  datatype Library = Library(gcm: Aead, gzip: Codec)

  ghost predicate Sound(lib: Library) {
    AeadSound(lib.gcm) && CodecSound(lib.gzip)
  }
}
