/**
 * The Transformer interface of pkg/transforms/types.go, closed over the three
 * implementations the repository has: AES, gzip and base64.
 *
 * `Forward` and `Reverse` are the specifications of one transformer's two
 * directions; `Apply` and `Unapply` are the calls the chain makes, proved
 * equal to them. `nonce` is what crypto/rand yields when the transformer is
 * AES (the other two ignore it).
 */
module Transforms {
  import opened Streams
  import opened Primitives
  import Aes
  import GZip
  import Base64

  datatype Transformer =
    | AES(aes: Aes.AESTransformer)
    | GZipTransformer
    | Base64Transformer

  /** Transform of the interface, one transformer. */
  function Forward(lib: Library, t: Transformer, input: Reader, nonce: Option<Nonce>): (r: Result<Reader>)
    ensures input.fault.Some? ==> r == Err(input.fault.value)
    ensures r.Ok? ==> r.value.fault == None
    ensures t.Base64Transformer? && input.fault == None ==> r == Ok(FromBytes(Base64.Encode(input.data)))
  {
    match t
    case AES(a) => Aes.Transform(lib.gcm, a, input, nonce)
    case GZipTransformer => GZip.Transform(lib.gzip, input)
    case Base64Transformer =>
      match ReadAll(input)
      case Err(e) => Err(e)
      case Ok(data) => Ok(FromBytes(Base64.Encode(data)))
  }

  /** ReverseTransform of the interface, one transformer. */
  function Reverse(lib: Library, t: Transformer, input: Reader): (r: Result<Reader>)
    ensures input.fault.Some? ==> r.Err?
    ensures input.fault.Some? && !t.GZipTransformer? ==> r == Err(input.fault.value)
    ensures r.Ok? ==> r.value.fault == None
    ensures t.Base64Transformer? && input.fault == None ==>
              r == (match Base64.Decode(input.data)
                    case Some(d) => Ok(FromBytes(d))
                    case None => Err(CorruptBase64))
  {
    match t
    case AES(a) => Aes.ReverseTransform(lib.gcm, a, input)
    case GZipTransformer => GZip.ReverseTransform(lib.gzip, input)
    case Base64Transformer =>
      match ReadAll(input)
      case Err(e) => Err(e)
      case Ok(data) =>
        match Base64.Decode(data)
        case None => Err(CorruptBase64)
        case Some(d) => Ok(FromBytes(d))
  }

  /** The dynamic call `transformer.Transform(current)`. Base64 runs its buffer-filling method. */
  method Apply(lib: Library, t: Transformer, input: Reader, nonce: Option<Nonce>) returns (out: Result<Reader>)
    ensures out == Forward(lib, t, input, nonce)
  {
    match t {
      case AES(a) => out := Aes.Transform(lib.gcm, a, input, nonce);
      case GZipTransformer => out := GZip.Transform(lib.gzip, input);
      case Base64Transformer => out := Base64.Transform(input);
    }
  }

  /** The dynamic call `transformer.ReverseTransform(current)`. */
  method Unapply(lib: Library, t: Transformer, input: Reader) returns (out: Result<Reader>)
    ensures out == Reverse(lib, t, input)
  {
    match t {
      case AES(a) => out := Aes.ReverseTransform(lib.gcm, a, input);
      case GZipTransformer => out := GZip.ReverseTransform(lib.gzip, input);
      case Base64Transformer => out := Base64.ReverseTransform(input);
    }
  }

  /** The per-transformer law the chain's round trip rests on: reverse undoes forward
      on every input and every nonce for which forward succeeds. */
  ghost predicate Reversible(lib: Library, t: Transformer) {
    forall input: Reader, nonce: Option<Nonce> {:trigger Forward(lib, t, input, nonce)} ::
      Forward(lib, t, input, nonce).Ok? ==> Reverse(lib, t, Forward(lib, t, input, nonce).value) == Ok(input)
  }

  /** Forward fails only on a faulty input, or (for AES) when no nonce could be drawn. */
  lemma ForwardSucceeds(lib: Library, t: Transformer, input: Reader, nonce: Option<Nonce>)
    requires input.fault == None
    requires t.AES? ==> nonce.Some?
    ensures Forward(lib, t, input, nonce).Ok?
  {
  }

  /** All three transformers are reversible when the primitives are sound. */
  lemma AllReversible(lib: Library, t: Transformer)
    requires Sound(lib)
    ensures Reversible(lib, t)
  {
    forall input: Reader, nonce: Option<Nonce> | Forward(lib, t, input, nonce).Ok?
      ensures Reverse(lib, t, Forward(lib, t, input, nonce).value) == Ok(input)
    {
      match t {
        case AES(a) => Aes.TransformRoundTrip(lib.gcm, a, input, nonce.value);
        case GZipTransformer => GZip.RoundTrip(lib.gzip, input);
        case Base64Transformer => Base64.RoundTrip(input.data);
      }
    }
  }
}
