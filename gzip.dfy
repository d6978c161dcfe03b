/**
 * The gzip transformer of pkg/transforms/gzip_transform.go. The container
 * format (RFC 1952) is the `Codec` passed in; the transformer only moves the
 * stream through it and reports the input's fault or a corrupt stream. The
 * forward direction reads the whole input before it compresses; the reverse
 * direction decompresses while it reads, so a corruption found in the bytes
 * before a fault is reported instead of the fault.
 */
module GZip {
  import opened Streams
  import opened Primitives

  /** Transform: copy the whole input through the compressor into a buffer. */
  function Transform(c: Codec, input: Reader): (r: Result<Reader>)
    ensures r.Ok? <==> input.fault == None
    ensures r.Err? ==> r.error == input.fault.value
    ensures r.Ok? ==> r.value.fault == None && r.value.data == c.compress(input.data)
  {
    match ReadAll(input)
    case Err(e) => Err(e)
    case Ok(data) => Ok(FromBytes(c.compress(data)))
  }

  /** ReverseTransform: gzip.NewReader and io.Copy read the input as they decompress. A faulty input
      fails: with CorruptGzip when the bytes before the fault are already corrupt, with the fault
      otherwise. A clean input decompresses, or is CorruptGzip when malformed. */
  function ReverseTransform(c: Codec, input: Reader): (r: Result<Reader>)
    ensures input.fault.Some? ==> r.Err?
    ensures input.fault.Some? && c.corruptWithin(input.data) ==> r.error == CorruptGzip
    ensures input.fault.Some? && !c.corruptWithin(input.data) ==> r.error == input.fault.value
    ensures input.fault == None ==> (r.Ok? <==> c.decompress(input.data).Some?)
    ensures input.fault == None && r.Ok? ==> r.value == FromBytes(c.decompress(input.data).value)
    ensures input.fault == None && r.Err? ==> r.error == CorruptGzip
  {
    match input.fault
    case Some(e) => if c.corruptWithin(input.data) then Err(CorruptGzip) else Err(e)
    case None =>
      match c.decompress(input.data)
      case None => Err(CorruptGzip)
      case Some(plain) => Ok(FromBytes(plain))
  }

  /** Reverse undoes forward for every fault-free input when the codec is sound. */
  lemma RoundTrip(c: Codec, input: Reader)
    requires CodecSound(c)
    requires input.fault == None
    ensures Transform(c, input).Ok?
    ensures ReverseTransform(c, Transform(c, input).value) == Ok(input)
  {
    assert c.decompress(c.compress(input.data)) == Some(input.data);
  }
}
