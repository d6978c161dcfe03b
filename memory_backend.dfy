/**
 * MemoryBackend (pkg/backends/memory_backend.go): pastes kept in a map from a
 * content-derived key to the bytes. The key is the hex of the first four
 * bytes of the SHA-256 digest of the contents; `sha256` is the hash function
 * the backend is given.
 */
module Memory {
  import opened Streams
  import opened Primitives
  import opened Hex

  /** The key Put files contents under: 8 lower-case hex digits taken from the digest. */
  function ContentKey(digest: Digest): (key: string)
    ensures |key| == 8
    ensures forall i :: 0 <= i < |key| ==> IsHexDigit(key[i])
  {
    EncodeToString(digest[..4])
  }

  /** The mapping after storing `contents` under its key. */
  function Stored(mapping: map<string, Bytes>, sha256: Bytes -> Digest, contents: Bytes): (m: map<string, Bytes>)
    ensures ContentKey(sha256(contents)) in m && m[ContentKey(sha256(contents))] == contents
    ensures forall k :: k != ContentKey(sha256(contents)) ==> (k in m <==> k in mapping)
    ensures forall k :: k in mapping && k != ContentKey(sha256(contents)) ==> m[k] == mapping[k]
  {
    mapping[ContentKey(sha256(contents)) := contents]
  }

  /** What Get writes: the stored bytes, or nothing for a key never stored (Go's zero value). */
  function Lookup(mapping: map<string, Bytes>, key: string): (w: Bytes)
    ensures key !in mapping ==> w == []
  {
    if key in mapping then mapping[key] else []
  }

  /** Getting a key right after storing contents under it gives those contents back. */
  lemma LookupStored(mapping: map<string, Bytes>, sha256: Bytes -> Digest, contents: Bytes)
    ensures Lookup(Stored(mapping, sha256, contents), ContentKey(sha256(contents))) == contents
  {
  }

  /** Storing the same contents twice leaves the mapping as storing it once. */
  lemma StoredIdempotent(mapping: map<string, Bytes>, sha256: Bytes -> Digest, contents: Bytes)
    ensures Stored(Stored(mapping, sha256, contents), sha256, contents) == Stored(mapping, sha256, contents)
  {
  }

  /** Two contents share a key exactly when their digests share the first four bytes. */
  lemma KeyCollision(d1: Digest, d2: Digest)
    ensures ContentKey(d1) == ContentKey(d2) <==> d1[..4] == d2[..4]
  {
    if ContentKey(d1) == ContentKey(d2) {
      EncodeInjective(d1[..4], d2[..4]);
    }
  }

  class MemoryBackend {
    var mapping: map<string, Bytes>
    const sha256: Bytes -> Digest

    /** NewMemoryBackend: an empty mapping. */
    constructor (sha256: Bytes -> Digest)
      ensures mapping == map[] && this.sha256 == sha256
    {
      mapping := map[];
      this.sha256 := sha256;
    }

    /** Put: read everything, file it under its content key, return the key. A read error changes nothing. */
    method Put(r: Reader) returns (out: Result<string>)
      modifies this
      ensures out.Ok? <==> r.fault == None
      ensures out.Err? ==> out.error == r.fault.value && mapping == old(mapping)
      ensures out.Ok? ==> out.value == ContentKey(sha256(r.data)) && mapping == Stored(old(mapping), sha256, r.data)
    {
      var contents := ReadAll(r);
      if contents.Err? {
        return Err(contents.error);
      }
      var hash := sha256(contents.value);
      var path := EncodeToString(hash[..4]);
      mapping := mapping[path := contents.value];
      return Ok(path);
    }

    /** Get: the bytes Put stored under `key`, or none at all for an unknown key. */
    method Get(key: string) returns (w: Bytes)
      ensures key in mapping ==> w == mapping[key]
      ensures key !in mapping ==> w == []
    {
      if key in mapping {
        w := mapping[key];
      } else {
        w := [];
      }
    }
  }
}
