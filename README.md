# pasted: the transform pipeline and storage core, in Dafny

pasted is a paste server. A client streams bytes in. The server runs them
through a configured chain of reversible transformers (AES-GCM encryption,
gzip compression, base64 encoding), stores the result in a backend, and hands
back a key. Fetching the key reads the stored blob and runs the chain
backwards.

This project models that core and proves its properties:

- **`Chain`.** The `ChainTransformer`. Its two loops are proved equal to
  `Forwards` and `Backwards`:
  - `Forwards` runs the list in order.
  - `Backwards` undoes it last-first.
  - Both stop at the first error.

  The main theorem, `ChainRoundTrip`, says: if every transformer in the list
  is reversible, so is the chain.
- **`Transforms`.** The transformer interface, closed over its three
  implementations. `AllReversible` shows each is reversible given sound
  primitives.
- **`Base64`.** RFC 4648 section 4 padded encoding, modelled fully:
  - tables, length formulas, encoder and decoder (including Go's skipping of
    CR/LF);
  - the buffer-filling methods the transformer calls;
  - the round trip;
  - an if-and-only-if characterisation of the input the decoder accepts.
- **`Aes`.** The framing around AES-GCM:
  - a key-length check;
  - `nonce || Seal(p)` on the way in;
  - on the way out, a length check, then the split and `Open`.
- **`GZip`.** The gzip transformer over an abstract codec.
- **`Factory`.** `GetTransforms`: names to transformers, in order. The first
  unknown name is the error.
- **`Memory`.** The in-memory backend. A map is updated in place, under the
  hex of the first four bytes of SHA-256.
- **`Files`.** The file backend. A file system map is updated in place,
  io.CopyN is modelled byte by byte, and keys are random.
- **`Paths`.** `filepath.Clean` and `filepath.Join` on `/`-separated paths.
- **`Random`.** `GenerateRandomString`.
- **`Hex`.** `hex.EncodeToString` and its inverse.
- **`Pipeline`.** Store through the memory backend, then fetch (run one after the other), gives the
  pasted bytes back.

The foreign primitives are values the caller supplies:
- AES-GCM is the pair `seal`/`open`.
- gzip is `compress`/`decompress`, plus `corruptWithin`. Go's decompressor reads as it goes, and `corruptWithin(b)` says that it stops with a header or stream error within the bytes `b`.
- SHA-256 is a function returning 32 bytes.

What the proofs rely on about them is stated as the predicates `AeadSound`,
`CodecSound` and `Sound`, taken as hypotheses. Randomness is an oracle:
- `nonces(i)` is the nonce drawn by transformer `i`;
- `draw(i)` is the letter index drawn for character `i`;
- `None` stands for a crypto/rand failure.

A Go `io.Reader` is a `Reader(data, fault)`: the bytes it yields, then EOF or
an error.

The size boundary of the file backend:
- The field comment at `pkg/backends/file_backend.go:16` calls `MaxSize` the
  maximum size of a submission.
- Yet `Put` as written never gives a key to a payload of `MaxSize` bytes or
  more, not even one of exactly `MaxSize` bytes, and it reports no error
  either. The model follows the code.
- `io.CopyN` cannot tell a payload of exactly `MaxSize` bytes from a longer
  one. The code's own `n == f.MaxSize` check therefore treats reaching the
  limit as too large, and the corrected `PutChecked` keeps that reading.
- See the finding below.

## Model

| member | source | states |
|---|---|---|
| Streams.FromBytes | pkg/transforms/base64_transform.go:26 | an in-memory reader (bytes.NewReader, bytes.Buffer) ends cleanly and reading it gives back exactly its bytes |
| Streams.ReadAll | pkg/transforms/aes_transform.go:28-31 | io.ReadAll yields every byte of a stream that ends with EOF, and otherwise the stream's error |
| Chain.ChainTransformer.constructor | pkg/transforms/chain.go:11-13 | the chain holds exactly the given list, as a constant no method can change |
| Chain.Forwards | pkg/transforms/chain.go:16-26 | running no transformer returns the input; once one has run, a success is always a clean stream |
| Chain.Backwards | pkg/transforms/chain.go:29-39 | undoing no transformer returns the input; undoing at least one fails on a faulty input, and a success is a clean stream |
| Chain.ChainTransformer.Transform | pkg/transforms/chain.go:16-26 | the forward loop returns `Forwards` over the whole list: transformer i gets transformer i-1's output, the first error ends the loop, and an empty chain returns its input unchanged |
| Chain.ChainTransformer.ReverseTransform | pkg/transforms/chain.go:29-39 | the reverse loop returns `Backwards` over the whole list: last index first down to 0, the first error ends the loop, and an empty chain returns its input unchanged |
| Chain.ForwardsFirst | pkg/transforms/chain.go:18-21 | transformer 0 runs first, on the chain's input, and the rest of the chain runs on its output |
| Chain.BackwardsTop | pkg/transforms/chain.go:32-33 | the reverse direction undoes the last transformer first, then the rest |
| Chain.ForwardsFailFast | pkg/transforms/chain.go:21-23 | once a prefix of the chain has failed, no later transformer runs and that first error is the chain's result |
| Chain.BackwardsFailFast | pkg/transforms/chain.go:34-36 | once the reverse direction has failed, no lower-index transformer runs and that first error is the result |
| Chain.ChainRoundTrip | pkg/transforms/chain.go:16-39 | if every transformer satisfies reverse(forward(x)) == x, then the chain's reverse undoes its forward, for any nonces |
| Chain.SoundChainRoundTrip | pkg/transforms/chain.go:16-39 | every chain of AES, gzip and base64 transformers round-trips when the primitives are sound |
| Chain.ForwardsSucceeds | pkg/transforms/chain.go:16-26 | the forward chain fails only on a faulty input or a failed nonce draw |
| Transforms.Forward | pkg/transforms/types.go:8 | one transformer's Transform: a faulty input returns its error, a result is always a clean stream, and base64 yields the encoding |
| Transforms.Reverse | pkg/transforms/types.go:9 | one transformer's ReverseTransform: a faulty input always fails, with its own error for AES and base64 (gzip may report a corruption first), and base64 yields the decoding or CorruptBase64 |
| Transforms.Apply | pkg/transforms/chain.go:20 | the dynamic call to Transform, base64 through its buffer-filling method, equals `Forward` |
| Transforms.Unapply | pkg/transforms/chain.go:33 | the dynamic call to ReverseTransform equals `Reverse` |
| Transforms.ForwardSucceeds | pkg/transforms/types.go:8 | a transformer's forward direction fails only on a faulty input, or for AES without a nonce |
| Transforms.AllReversible | pkg/transforms/types.go:7-10 | AES, gzip and base64 each satisfy reverse(forward(x)) == x under sound primitives |
| Base64.EncodedLen | pkg/transforms/base64_transform.go:23 | the encoded length is the fewest whole quanta of 4 symbols that hold n bytes, 3 bytes per quantum |
| Base64.DecodedLen | pkg/transforms/base64_transform.go:37 | the decode buffer holds 3 bytes for each whole quantum of 4 in the input |
| Base64.Symbol | pkg/transforms/base64_transform.go:24 | the encode table maps every 6-bit value into the RFC 4648 alphabet |
| Base64.Encode | pkg/transforms/base64_transform.go:23-24 | the encoding is exactly EncodedLen(n) = 4·ceil(n/3) bytes long |
| Base64.EncodeAlphabet | pkg/transforms/base64_transform.go:23-24 | encoded output is RFC 4648 alphabet symbols and '=', with '=' only in the last two positions |
| Base64.Value | pkg/transforms/base64_transform.go:38 | the decode table maps every byte to a 6-bit value or the invalid mark |
| Base64.SymbolValue | pkg/transforms/base64_transform.go:24 | the decode table inverts the encode table; no symbol is '=', CR or LF |
| Base64.ValueSymbol | pkg/transforms/base64_transform.go:38 | the encode table inverts the decode table on the alphabet |
| Base64.Strip | pkg/transforms/base64_transform.go:38 | the decoder's view of its input contains no CR or LF and is no longer than it |
| Base64.QuantumLength | pkg/transforms/base64_transform.go:38 | the final quantum carries 2, 3 or 4 symbols, or is malformed |
| Base64.DecodeFinal | pkg/transforms/base64_transform.go:38 | a well-formed final quantum yields 1 to 3 bytes |
| Base64.DecodeQuanta | pkg/transforms/base64_transform.go:38 | decoding t yields at most 3·(len(t)/4) bytes |
| Base64.Decode | pkg/transforms/base64_transform.go:37-38 | decoding writes at most DecodedLen(n) = 3·(n/4) bytes |
| Base64.EmptyInput | pkg/transforms/base64_transform.go:23-24 | the empty input encodes to nothing and decodes to nothing |
| Base64.RoundTrip | pkg/transforms/base64_transform.go:15-44 | Decode(Encode(x)) == x for every byte sequence x |
| Base64.DecodeRejectsForeign | pkg/transforms/base64_transform.go:38-41 | a byte outside the alphabet (other than '=', CR, LF) makes decoding fail |
| Base64.DecodeRejectsPartialQuantum | pkg/transforms/base64_transform.go:38-41 | input whose length without line breaks is not a multiple of 4 (missing or incomplete padding) fails |
| Base64.WellFormedCons | pkg/transforms/base64_transform.go:38 | input longer than one quantum is well formed exactly when its first quantum is four symbols and the rest is well formed |
| Base64.QuantaWellFormed | pkg/transforms/base64_transform.go:38-41 | the quantum decoder succeeds exactly on well-formed input |
| Base64.DecodeWellFormed | pkg/transforms/base64_transform.go:38-41 | decoding succeeds if and only if the input without line breaks is whole quanta of symbols with padding only at the very end, as "=" or "==" |
| Base64.DecodeRejectsMisplacedPad | pkg/transforms/base64_transform.go:38-41 | a '=' before the last two places ("=QQQ", "QQ==QUJD"), or a second-to-last '=' followed by anything else ("QQ=A"), makes decoding fail |
| Base64.StripKeeps | pkg/transforms/base64_transform.go:38 | input without line breaks reaches the quantum decoder unchanged |
| Base64.StripRetains | pkg/transforms/base64_transform.go:38 | every byte other than CR and LF reaches the quantum decoder |
| Base64.GroupDecodes | pkg/transforms/base64_transform.go:23-38 | a whole encoded group decodes to its three bytes |
| Base64.Tail1Decodes | pkg/transforms/base64_transform.go:23-38 | a group padded with "==" decodes to its one byte |
| Base64.Tail2Decodes | pkg/transforms/base64_transform.go:23-38 | a group padded with "=" decodes to its two bytes |
| Base64.DecodeQuantaEncode | pkg/transforms/base64_transform.go:23-38 | the quantum decoder inverts the encoder |
| Base64.QuantaRejectForeign | pkg/transforms/base64_transform.go:38-41 | a foreign byte anywhere makes the quantum decoder fail |
| Base64.QuantaRejectPartial | pkg/transforms/base64_transform.go:38-41 | a length that is not a multiple of 4 makes the quantum decoder fail |
| Base64.EncodedLenStep | pkg/transforms/base64_transform.go:23 | each whole group adds 4 to the encoded length |
| Base64.EncodeStep | pkg/transforms/base64_transform.go:24 | the encoding of a suffix is its first group's encoding followed by the rest |
| Base64.EncodeAdvance | pkg/transforms/base64_transform.go:24 | writing one more group keeps the buffer a prefix of the encoding |
| Base64.Put4 | pkg/transforms/base64_transform.go:24 | four symbols are written at position j and nothing else changes |
| Base64.EncodeGroups | pkg/transforms/base64_transform.go:24 | the whole groups are written in place, leaving the buffer a prefix of the encoding |
| Base64.EncodeInto | pkg/transforms/base64_transform.go:23-24 | filling the EncodedLen buffer in place leaves exactly Encode(src) in it, and nothing beyond it changes |
| Base64.DecodeLast | pkg/transforms/base64_transform.go:38 | the final quantum is decoded in place, or rejected exactly when it is malformed |
| Base64.DecodeWhole | pkg/transforms/base64_transform.go:38 | a whole quantum's three bytes are written in place |
| Base64.DecodedLenBound | pkg/transforms/base64_transform.go:37 | each whole quantum fits in the DecodedLen buffer |
| Base64.QuantaAt | pkg/transforms/base64_transform.go:38 | how the decoder proceeds from a quantum boundary |
| Base64.DecodeInto | pkg/transforms/base64_transform.go:37-43 | decoding into the DecodedLen buffer succeeds exactly when the input is well formed, and then its first n bytes are the decoding |
| Base64.Transform | pkg/transforms/base64_transform.go:15-27 | the forward direction returns the encoding of the whole input, EncodedLen bytes long, or the input's error |
| Base64.ReverseTransform | pkg/transforms/base64_transform.go:29-44 | the reverse direction returns the decoding trimmed to its count, CorruptBase64 for malformed input, or the input's error |
| Aes.NewAESTransformer | pkg/transforms/aes_transform.go:18-23 | construction succeeds exactly for 16-, 24- and 32-byte keys and keeps the key; otherwise it returns an invalid-key-length error |
| Aes.Encrypt | pkg/transforms/aes_transform.go:46-52 | the output is the fresh NonceSize-byte nonce followed by Seal of the plaintext; a failed draw is an error |
| Aes.Decrypt | pkg/transforms/aes_transform.go:78-90 | input shorter than the nonce is "ciphertext too short"; otherwise the first 12 bytes are the nonce and the rest goes to Open; a failed Open is an error and never plaintext |
| Aes.Transform | pkg/transforms/aes_transform.go:26-55 | the forward direction reads the input, returns its error if any, and otherwise emits nonce followed by Seal(key, nonce, plaintext) |
| Aes.ReverseTransform | pkg/transforms/aes_transform.go:58-93 | the reverse direction reads the input, returns its error if any, and otherwise returns what `Decrypt` returns |
| Aes.EncryptLength | pkg/transforms/aes_transform.go:46-52 | forward output is NonceSize + len(plaintext) + TagSize bytes |
| Aes.RoundTrip | pkg/transforms/aes_transform.go:26-93 | with the same key, Decrypt(Encrypt(p)) == p for every nonce |
| Aes.TransformRoundTrip | pkg/transforms/aes_transform.go:26-93 | ReverseTransform(Transform(r)) == r for every clean input stream |
| GZip.Transform | pkg/transforms/gzip_transform.go:11-22 | forward compresses the whole input, or returns the input's error |
| GZip.ReverseTransform | pkg/transforms/gzip_transform.go:24-35 | reverse decompresses a clean input, or returns CorruptGzip when it is malformed; a faulty input fails with CorruptGzip when the bytes before the fault are already corrupt, and with the fault otherwise |
| GZip.RoundTrip | pkg/transforms/gzip_transform.go:11-35 | reverse undoes forward under a sound codec |
| Factory.TransformFor | pkg/config/transforms_factory.go:13-26 | "aes" gives an AES transformer keyed by the digest, "gzip" the gzip transformer, "base64" the base64 transformer; any other name is an unknown-transform error |
| Factory.DigestKeyAccepted | pkg/config/transforms_factory.go:15-19 | a SHA-256 digest always passes the AES key-length check |
| Factory.GetTransforms | pkg/config/transforms_factory.go:10-30 | succeeds exactly when every name is known; then one transformer per name, in order; otherwise the error names the first unknown name; no names give the empty (identity) chain |
| Random.LettersAlphanumeric | pkg/util/random.go:9 | the alphabet has 62 characters, all ASCII letters or digits |
| Random.RandomString | pkg/util/random.go:8-19 | succeeds exactly when every draw succeeds; then n characters, all alphanumeric; n = 0 gives "" |
| Random.GenerateRandomString | pkg/util/random.go:8-19 | the buffer loop returns `RandomString`; character i is letters[draw(i)], and the first failed draw is the error |
| Hex.Digit | pkg/backends/memory_backend.go:32 | every nibble becomes a lower-case hex digit |
| Hex.DigitValue | pkg/backends/memory_backend.go:32 | exactly the lower-case hex digits have a value, below 16 |
| Hex.DigitRoundTrip | pkg/backends/memory_backend.go:32 | reading a written digit gives its nibble back |
| Hex.NibblesRebuild | pkg/backends/memory_backend.go:32 | a byte is its high nibble shifted up, ORed with its low nibble |
| Hex.EncodeToString | pkg/backends/memory_backend.go:32 | two lower-case hex digits per byte |
| Hex.DecodeLower | pkg/backends/memory_backend.go:32 | the lower-case inverse of EncodeToString yields one byte per two digits (unlike Go's hex.DecodeString it rejects upper-case digits) |
| Hex.DecodeEncode | pkg/backends/memory_backend.go:32 | decoding inverts EncodeToString |
| Hex.EncodeInjective | pkg/backends/memory_backend.go:32 | distinct byte strings have distinct hex strings |
| Memory.ContentKey | pkg/backends/memory_backend.go:31-32 | the key is exactly 8 lower-case hex characters |
| Memory.Stored | pkg/backends/memory_backend.go:33 | after a store the key maps to the full contents and every other key is unchanged |
| Memory.Lookup | pkg/backends/memory_backend.go:41 | an absent key yields zero bytes |
| Memory.LookupStored | pkg/backends/memory_backend.go:33-41 | Get right after Put yields exactly the stored bytes |
| Memory.StoredIdempotent | pkg/backends/memory_backend.go:31-33 | re-putting the same contents leaves the map as one put did |
| Memory.KeyCollision | pkg/backends/memory_backend.go:31-32 | two contents share a key exactly when their digests share the first four bytes |
| Memory.MemoryBackend.constructor | pkg/backends/memory_backend.go:18-20 | a new backend has an empty mapping |
| Memory.MemoryBackend.Put | pkg/backends/memory_backend.go:24-37 | on a clean read the key is ContentKey(sha256(contents)) and the mapping is `Stored`; a read error returns that error and leaves the mapping untouched |
| Memory.MemoryBackend.Get | pkg/backends/memory_backend.go:40-43 | writes the bytes stored under the key, or zero bytes for an unknown key |
| Paths.FirstSlash | pkg/backends/file_backend.go:69 | the index of the first separator |
| Paths.Elements | pkg/backends/file_backend.go:69 | a path splits into at least one element, none containing '/' |
| Paths.Resolve | pkg/backends/file_backend.go:69 | resolving "." and ".." never produces an empty element |
| Paths.Unsplit | pkg/backends/file_backend.go:69 | joining elements is at least as long as the first one |
| Paths.Clean | pkg/backends/file_backend.go:69 | a cleaned path is never empty, and a rooted path stays rooted |
| Paths.Join | pkg/backends/file_backend.go:50-71 | the empty directory is skipped; otherwise directory and name are joined and cleaned |
| Paths.CleanPlainName | pkg/backends/file_backend.go:69 | a non-empty name with no '/' or '.' is unchanged by Clean |
| Paths.CleanEdges | pkg/backends/file_backend.go:69 | Clean("") is "." and Clean("/") is "/" |
| Files.FileSystem.constructor | pkg/backends/file_backend.go:50 | an empty file system |
| Files.FileSystem.Create | pkg/backends/file_backend.go:50-53 | creation makes or truncates the file, or fails and changes nothing |
| Files.FileSystem.Append | pkg/backends/file_backend.go:56 | one byte is appended to an open file and nothing else changes |
| Files.Copied | pkg/backends/file_backend.go:56 | CopyN moves min(len, MaxSize) bytes, never more than MaxSize and nothing for a limit of 0 or below |
| Files.CopyResult | pkg/backends/file_backend.go:56 | CopyN's error is the reader's fault exactly when the reader fails before the limit is reached |
| Files.CopyEOF | pkg/backends/file_backend.go:56-57 | CopyN reports EOF exactly when the input is shorter than the limit and ends cleanly, so EOF always comes with fewer than MaxSize bytes |
| Files.CopyDone | pkg/backends/file_backend.go:56-57 | CopyN reports no error exactly when the input holds at least the limit |
| Files.KeyFor | pkg/backends/file_backend.go:40-48 | pathGen yields a keyLength-character key, or "" when randomness failed |
| Files.PutResult | pkg/backends/file_backend.go:50-64 | as written: a failed create is its error, and a success is either the key or the empty string |
| Files.PutOutcome | pkg/backends/file_backend.go:56-64 | as written: input of MaxSize bytes or more gives ("", nil), shorter clean input gives the key, and shorter failing input gives its error; the FileTooLarge branch is never taken |
| Files.PutZeroLimit | pkg/backends/file_backend.go:56-62 | with a size limit of 0, as written, every input is answered with an empty key and no error |
| Files.PutOverLimitExample | pkg/backends/file_backend.go:56-62 | five bytes under a four-byte limit give an empty key and no error |
| Files.PutCheckedOutcome | pkg/backends/file_backend.go:56-64 | corrected: a key comes back exactly for clean input shorter than MaxSize; longer input gets FileTooLarge; failing input gets its error |
| Files.FileAt | pkg/backends/file_backend.go:68-82 | Get succeeds exactly when the file Root/Clean(path) exists |
| Files.FileAtGenerated | pkg/backends/file_backend.go:48-71 | a generated key is a plain name, so Get opens the very file Put created |
| Files.PutThenGet | pkg/backends/file_backend.go:47-82 | when Put returns a generated key, Get of that key yields the whole input, not a prefix |
| Files.FileBackend.constructor | pkg/backends/file_backend.go:25-35 | the backend keeps the root, the int64 limit, the key length and the file system |
| Files.FileBackend.DefaultFileBackend | pkg/backends/file_backend.go:38-44 | the defaults are a 50·1024-byte limit and 6-character keys |
| Files.FileBackend.PathGen | pkg/backends/file_backend.go:40-43 | the generator returns `KeyFor`: a random string, or "" on failure |
| Files.FileBackend.CopyN | pkg/backends/file_backend.go:56 | the byte loop appends exactly the first `Copied` bytes of the input to the file and reports `CopyResult` |
| Files.FileBackend.Put | pkg/backends/file_backend.go:47-65 | as written: pathGen is called once, Root/key is created or the creation error returned, at most MaxSize bytes are copied into it, and the outcome is `PutResult`; the file stays behind whatever the outcome |
| Files.FileBackend.PutChecked | pkg/backends/file_backend.go:56-62 | corrected Put: CopyN's nil error is checked against the limit, so filling the limit is FileTooLarge |
| Files.FileBackend.Get | pkg/backends/file_backend.go:68-82 | yields the contents of Root/Clean(path), or NotExist |
| Pipeline.MemoryRoundTrip | main.go:90-123 | chain forward, memory Put, Get of the returned key, then chain reverse, gives back exactly the pasted bytes |
| Pipeline.StoreThenFetch | main.go:143-161 | the sequential composition of handlePaste's forward chain and Put with Get and the reverse chain returns the pasted bytes under sound primitives and working randomness; the backend gains exactly the chain's output under its content key when the chain yields a clean stream, and is unchanged otherwise |

## Left out

- Concurrency. `handlePaste` runs in one goroutine per connection (`main.go:139`), and all of them write the memory backend's `mapping` with no lock, while the HTTP handlers read it. The model runs every operation alone, so it says nothing about data races on the map.
- Console output. `MemoryBackend.Put` prints with `fmt.Println` (`pkg/backends/memory_backend.go:25`, `:34`). The printing is not modelled.
- Files.FileBackend.Put: a failed write into the created file is not modelled. `io.CopyN` would return that write error and `Put` would return `("", err)` (`pkg/backends/file_backend.go:56-58`). The model covers only read faults.
- Files.FileBackend.CopyN: only the reader can fail. Writes into the file always succeed, so a write error is never its result.
- Files.FileSystem.Append: always succeeds. A disk or device error on write is not modelled.
- Concurrency in fetching. The retrieve handler (`main.go:90-123`) feeds `Get` into the reverse chain through an `io.Pipe` and a goroutine, with an error channel. Only the sequential composition is modelled, in `Pipeline`. As written, the handler can block forever in two cases:
  - For an empty chain, whenever `Get` writes into the pipe. `ReverseTransform` hands back the pipe's reader unread (`pkg/transforms/chain.go:29-39`). The handler then waits on the error channel (`main.go:108`), while the goroutine's write into the pipe (`main.go:97`) waits for a reader that never comes. This happens:
    - always with the memory backend, which writes even zero bytes;
    - with the file backend when the file exists and is not empty. For an unknown key, `os.Open` fails (`pkg/backends/file_backend.go:71-74`) and the handler replies with an error.
  - Whenever the reverse chain stops reading before `Get` has finished writing, for example gzip rejecting a corrupt header with input still unread.

  `Pipeline.StoreThenFetch` runs the two halves one after the other, so it never blocks, and it captures neither hang.
- The TCP accept loop, HTTP routing and rate limiting in `main.go`.
- Joining `cfg.Domain` into the reply in `main.go`.
- AES-GCM, gzip's container format and SHA-256. They are supplied function values, and their guarantees are hypotheses. Go's `aes.NewCipher` and `cipher.NewGCM` errors cannot occur for a checked key, and are not modelled.
- Tamper detection. Flipping a bit of a ciphertext makes `Open` fail only because of GCM itself. The model shows only that a failed `Open` is reported as an error.
- Order sensitivity of chains. The model does not show that a chain reversed in the wrong order fails. That depends on the cipher and the codec.
- crypto/rand. It is the `nonces` and `draw` oracles. `rand.Read` filling the nonce buffer is that oracle's value.
- Writer failures in `Get`, for both backends. `io.Copy` to `w` and `w.Write` are taken to succeed, and `Get` returns the bytes it would write.
- `os.MkdirAll` in `NewFileBackend`, directories in general, and the deferred `Close`. Whether `os.Create` succeeds is the `createOk` parameter.
- `pathGen` as an arbitrary function. The model fixes it to the form both generators in the repository take: a random string of `keyLength` letters, or "" on failure. The backend factory (`pkg/config/backend_factory.go:21-27`) uses 5 letters, and `DefaultFileBackend` uses 6.
- Paths.Clean: follows Go's Unix rules only, as does `Paths.Join`. Windows volume names and separators are not modelled.
- Factory.GetTransforms: the configured key string is taken as its bytes. Go's conversion of a string to UTF-8 bytes is not modelled.
- Files.FileBackend.constructor: `MaxSize` is an `int` bounded to the int64 range at construction. No arithmetic on it can overflow.
- The commented-out OFB code at the end of `pkg/transforms/aes_transform.go`. It is dead code.
- The database, key-value and cloud backends, the backend factory and the CLI configuration struct.

## Findings

| source | as written | input that shows it | evidently intended | confidence | as-written member | corrected member |
|---|---|---|---|---|---|---|
| pkg/backends/file_backend.go:56-62 | `io.CopyN` returns a nil error once `MaxSize` bytes are copied. `if err != io.EOF` then returns `("", nil)`: no key and no error. The `n == f.MaxSize` check only runs after EOF, which always comes with fewer than `MaxSize` bytes, so `ErrFileTooLarge` is never returned. `handlePaste` then replies with `cfg.Domain + "/"` followed by the empty key, as if it were a paste's address. | `MaxSize` = 4, input of 5 clean bytes: the result is `Ok("")`. In everyday use: `size_limit_bytes` (`pkg/config/cli.go:14`) is 0 when the configuration leaves it out, and then every paste to the file backend gets `("", nil)` | an input that fills the limit is refused with `ErrFileTooLarge`, and only a clean, shorter input gets its key | high (not executed) | Files.FileBackend.Put, Files.PutOverLimitExample, Files.PutOutcome, Files.PutZeroLimit | Files.FileBackend.PutChecked, Files.PutCheckedOutcome |
