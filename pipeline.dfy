/**
 * The sequential composition of the two halves of main.go: handlePaste's
 * forward chain and Put, followed by a Get of the returned key and the
 * chain's reverse direction. The retrieve handler itself connects Get to the
 * reverse chain through a pipe and a goroutine; that concurrency, and the
 * ways it can block, are not part of this composition.
 */
module Pipeline {
  import opened Streams
  import opened Primitives
  import opened Transforms
  import opened Chain
  import opened Memory

  /** Store then retrieve through the memory backend gives back exactly the pasted bytes, for every
      chain the factory can build, provided the primitives are sound and randomness does not fail. */
  lemma {:induction false} MemoryRoundTrip(lib: Library, ts: seq<Transformer>, input: Reader, nonces: nat -> Option<Nonce>,
                                           mapping: map<string, Bytes>, sha256: Bytes -> Digest)
    requires Sound(lib)
    requires input.fault == None
    requires forall i :: 0 <= i < |ts| ==> nonces(i).Some?
    ensures Forwards(lib, ts, input, nonces, |ts|).Ok?
    ensures var stored := Forwards(lib, ts, input, nonces, |ts|).value.data;
            Backwards(lib, ts, 0, |ts|, FromBytes(Lookup(Stored(mapping, sha256, stored), ContentKey(sha256(stored))))) == Ok(input)
  {
    ForwardsSucceeds(lib, ts, input, nonces, |ts|);
    var out := Forwards(lib, ts, input, nonces, |ts|).value;
    assert out.fault == None;
    LookupStored(mapping, sha256, out.data);
    assert FromBytes(out.data) == out;
    SoundChainRoundTrip(lib, ts, input, nonces);
  }

  /** handlePaste's forward chain and Put, then Get of the key and the reverse chain, run one after
      the other on the memory backend.
      The backend gains the chain's output under its content key when the chain succeeds with a
      clean stream, and is left as it was otherwise. */
  method StoreThenFetch(lib: Library, chain: ChainTransformer, backend: MemoryBackend, input: Reader, nonces: nat -> Option<Nonce>)
    returns (out: Result<Reader>)
    modifies backend
    ensures var f := Forwards(lib, chain.transformers, input, nonces, |chain.transformers|);
            if f.Ok? && f.value.fault == None
            then backend.mapping == Stored(old(backend.mapping), backend.sha256, f.value.data)
            else backend.mapping == old(backend.mapping)
    ensures out.Ok? ==> Forwards(lib, chain.transformers, input, nonces, |chain.transformers|).Ok?
    ensures Sound(lib) && input.fault == None && (forall i :: 0 <= i < |chain.transformers| ==> nonces(i).Some?) ==>
              out == Ok(input)
  {
    var transformed := chain.Transform(lib, input, nonces);
    if input.fault == None && (forall i :: 0 <= i < |chain.transformers| ==> nonces(i).Some?) {
      ForwardsSucceeds(lib, chain.transformers, input, nonces, |chain.transformers|);
    }
    if transformed.Err? {
      return Err(transformed.error);
    }
    var key := backend.Put(transformed.value);
    if key.Err? {
      return Err(key.error);
    }
    var stored := backend.Get(key.value);
    out := chain.ReverseTransform(lib, FromBytes(stored));
    if Sound(lib) && input.fault == None && (forall i :: 0 <= i < |chain.transformers| ==> nonces(i).Some?) {
      MemoryRoundTrip(lib, chain.transformers, input, nonces, old(backend.mapping), backend.sha256);
    }
  }
}
