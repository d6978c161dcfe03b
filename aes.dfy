/**
 * The AES transformer: the framing that pkg/transforms/aes_transform.go puts
 * around AES-GCM. Forward emits nonce || Seal(plaintext); reverse checks the
 * length, splits the nonce off and opens the rest. The cipher itself is the
 * `Aead` value passed in; the fresh nonce is the outcome of crypto/rand.
 */
module Aes {
  import opened Streams
  import opened Primitives

  /** The transformer holds only its key, which never changes after construction. */
  datatype AESTransformer = AESTransformer(key: AesKey)

  /** NewAESTransformer: accepts exactly the AES-128, AES-192 and AES-256 key lengths. */
  function NewAESTransformer(key: Bytes): (r: Result<AESTransformer>)
    ensures r.Ok? <==> (|key| == 16 || |key| == 24 || |key| == 32)
    ensures r.Ok? ==> r.value.key == key
    ensures r.Err? ==> r.error == InvalidKeyLength
  {
    if |key| != 16 && |key| != 24 && |key| != 32 then Err(InvalidKeyLength)
    else Ok(AESTransformer(key))
  }

  /** Forward on the plaintext; `nonce` is what crypto/rand produced (None when it failed). */
  function Encrypt(g: Aead, t: AESTransformer, plaintext: Bytes, nonce: Option<Nonce>): (r: Result<Bytes>)
    ensures nonce == None ==> r == Err(RandomUnavailable)
    ensures nonce.Some? ==> r.Ok? && |r.value| >= NonceSize && r.value[..NonceSize] == nonce.value &&
                            r.value[NonceSize..] == g.seal(t.key, nonce.value, plaintext)
  {
    match nonce
    case None => Err(RandomUnavailable)
    case Some(n) => Ok(n + g.seal(t.key, n, plaintext))
  }

  /** Reverse on the ciphertext: too short for a nonce is an error; otherwise open the remainder. */
  function Decrypt(g: Aead, t: AESTransformer, ciphertext: Bytes): (r: Result<Bytes>)
    ensures |ciphertext| < NonceSize ==> r == Err(CiphertextTooShort)
    ensures r.Ok? ==> |ciphertext| >= NonceSize &&
                      g.open(t.key, ciphertext[..NonceSize], ciphertext[NonceSize..]) == Some(r.value)
    ensures |ciphertext| >= NonceSize && g.open(t.key, ciphertext[..NonceSize], ciphertext[NonceSize..]) == None ==>
              r == Err(AuthenticationFailed)
  {
    if |ciphertext| < NonceSize then Err(CiphertextTooShort)
    else
      var nonce: Nonce := ciphertext[..NonceSize];
      match g.open(t.key, nonce, ciphertext[NonceSize..])
      case None => Err(AuthenticationFailed)
      case Some(p) => Ok(p)
  }

  /** Transform: read the whole input, draw a nonce, emit nonce || Seal(plaintext) as a new reader. */
  function Transform(g: Aead, t: AESTransformer, input: Reader, nonce: Option<Nonce>): (r: Result<Reader>)
    ensures input.fault.Some? ==> r == Err(input.fault.value)
    ensures input.fault == None && nonce == None ==> r == Err(RandomUnavailable)
    ensures r.Ok? ==> r.value.fault == None && nonce.Some? &&
                      r.value.data == nonce.value + g.seal(t.key, nonce.value, input.data)
  {
    match ReadAll(input)
    case Err(e) => Err(e)
    case Ok(plaintext) =>
      match Encrypt(g, t, plaintext, nonce)
      case Err(e) => Err(e)
      case Ok(c) => Ok(FromBytes(c))
  }

  /** ReverseTransform: read the whole input and decrypt it. */
  function ReverseTransform(g: Aead, t: AESTransformer, input: Reader): (r: Result<Reader>)
    ensures input.fault.Some? ==> r == Err(input.fault.value)
    ensures input.fault == None ==> r == (match Decrypt(g, t, input.data)
                                          case Ok(p) => Ok(FromBytes(p))
                                          case Err(e) => Err(e))
  {
    match ReadAll(input)
    case Err(e) => Err(e)
    case Ok(ciphertext) =>
      match Decrypt(g, t, ciphertext)
      case Err(e) => Err(e)
      case Ok(p) => Ok(FromBytes(p))
  }

  /** Forward output is the nonce, then the plaintext's length in ciphertext, then the tag. */
  lemma EncryptLength(g: Aead, t: AESTransformer, plaintext: Bytes, nonce: Nonce)
    requires AeadSound(g)
    ensures Encrypt(g, t, plaintext, Some(nonce)).Ok?
    ensures |Encrypt(g, t, plaintext, Some(nonce)).value| == NonceSize + |plaintext| + TagSize
  {
    assert |g.seal(t.key, nonce, plaintext)| == |plaintext| + TagSize;
  }

  /** Round trip: the same key in both directions and a sound cipher give the plaintext back,
      whatever nonce was drawn. */
  lemma RoundTrip(g: Aead, t: AESTransformer, plaintext: Bytes, nonce: Nonce)
    requires AeadSound(g)
    ensures Decrypt(g, t, Encrypt(g, t, plaintext, Some(nonce)).value) == Ok(plaintext)
  {
    var sealed := g.seal(t.key, nonce, plaintext);
    var c := nonce + sealed;
    assert g.open(t.key, nonce, sealed) == Some(plaintext);
    assert c[..NonceSize] == nonce && c[NonceSize..] == sealed;
  }

  /** The same round trip at the level of readers: reverse undoes forward for any fault-free input. */
  lemma TransformRoundTrip(g: Aead, t: AESTransformer, input: Reader, nonce: Nonce)
    requires AeadSound(g)
    requires input.fault == None
    ensures Transform(g, t, input, Some(nonce)).Ok?
    ensures ReverseTransform(g, t, Transform(g, t, input, Some(nonce)).value) == Ok(input)
  {
    RoundTrip(g, t, input.data, nonce);
  }
}
