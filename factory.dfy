/**
 * CLIConfig.GetTransforms (pkg/config/transforms_factory.go): turns the
 * configured list of transform names into the list of transformers, in the
 * same order, rejecting the first name it does not know.
 *
 * The AES key is the configured key string as bytes; it is hashed with the
 * `sha256` function passed in, and the 32-byte digest is the AES-256 key.
 */
module Factory {
  import opened Streams
  import opened Primitives
  import opened Transforms
  import Aes

  /** The part of the configuration GetTransforms reads. */
  datatype CLIConfig = CLIConfig(transformers: seq<string>, aesKey: Bytes)

  predicate Known(name: string) {
    name == "aes" || name == "gzip" || name == "base64"
  }

  /** The transformer one name stands for, given the digest of the AES key. */
  function TransformFor(name: string, digest: Digest): (r: Result<Transformer>)
    ensures r.Ok? <==> Known(name)
    ensures !Known(name) ==> r == Err(UnknownTransform(name))
    ensures name == "aes" ==> r.Ok? && r.value.AES? && r.value.aes.key == digest
    ensures name == "gzip" ==> r == Ok(GZipTransformer)
    ensures name == "base64" ==> r == Ok(Base64Transformer)
  {
    if name == "aes" then Ok(AES(Aes.NewAESTransformer(digest).value))
    else if name == "gzip" then Ok(GZipTransformer)
    else if name == "base64" then Ok(Base64Transformer)
    else Err(UnknownTransform(name))
  }

  /** A SHA-256 digest is always an acceptable AES key, so the constructor's error branch is never taken here. */
  lemma DigestKeyAccepted(digest: Digest)
    ensures Aes.NewAESTransformer(digest) == Ok(Aes.AESTransformer(digest))
  {
  }

  /** GetTransforms: one transformer per name, in order; the first unknown name is the error. */
  method GetTransforms(config: CLIConfig, sha256: Bytes -> Digest) returns (r: Result<seq<Transformer>>)
    ensures r.Ok? <==> forall i :: 0 <= i < |config.transformers| ==> Known(config.transformers[i])
    ensures r.Ok? ==> |r.value| == |config.transformers|
    ensures r.Ok? ==> forall i :: 0 <= i < |r.value| ==>
                        Ok(r.value[i]) == TransformFor(config.transformers[i], sha256(config.aesKey))
    ensures r.Err? ==> exists i :: 0 <= i < |config.transformers| && !Known(config.transformers[i]) &&
                        (forall j :: 0 <= j < i ==> Known(config.transformers[j])) &&
                        r.error == UnknownTransform(config.transformers[i])
    ensures config.transformers == [] ==> r == Ok([])
  {
    var names := config.transformers;
    var t: seq<Transformer> := [];
    for i := 0 to |names|
      invariant |t| == i
      invariant forall j :: 0 <= j < i ==> Known(names[j])
      invariant forall j :: 0 <= j < i ==> Ok(t[j]) == TransformFor(names[j], sha256(config.aesKey))
    {
      var name := names[i];
      if name == "aes" {
        var hash := sha256(config.aesKey);
        var aes := Aes.NewAESTransformer(hash);
        t := t + [AES(aes.value)];
      } else if name == "gzip" {
        t := t + [GZipTransformer];
      } else if name == "base64" {
        t := t + [Base64Transformer];
      } else {
        return Err(UnknownTransform(name));
      }
    }
    return Ok(t);
  }
}
