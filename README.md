# Sticker-pack manifest pipeline, modelled in Dafny

This project models the core of the signalstickers build step that fetches
every known Signal sticker pack's encrypted manifest from the Signal CDN,
authenticates and decrypts it with the pack key, decodes it as a protobuf
`Pack` message and collects `{meta, manifest: {title, author, cover}}` for
every pack (`src/plugins/FetchStickerDataPlugin.ts`).

The pipeline is pure code around library calls, and so is the model: data
types, functions and lemmas, one module per concern.

- `Wrappers`: `Option` and `Result` values. A `Result` stands for a value or a thrown error.
- `Errors`: the `ErrorWithCode` values: an optional `code` and a `message` that each stage prefixes.
- `Bytes`: byte strings. It also holds JavaScript's `slice`, with negative indices counted from the end and clamping, and the zero bytes of `new ArrayBuffer(n)`.
- `Hex`: Node's hex codec. Encoding is `toString('hex')` and `digest('hex')`. Decoding is the lenient `Buffer.from(s, 'hex')`, which stops at the first pair holding a non-digit.
- `Primitives`: HKDF (RFC 5869), HMAC-SHA256 (RFC 2104), AES-256-CBC decryption (NIST SP 800-38A) and `Pack` decoding. These are function-valued fields of one datatype, so every lemma holds for every choice of them. The one fact about them some lemmas need, that HMAC returns 32 bytes, is a predicate; the key-split lemma asks for HKDF output of at least 64 bytes in its own requires.
- `Manifest`: `deriveKeys`, the manifest layout, `decryptManifest` and `parseManifest`.
- `Fetch`: `getStickerPack` and its retry policy. The network is a function from (pack id, request number) to a response or an error.
- `Catalog`: `getAllStickerPacks`, an order-preserving map over the catalog's entries that fails as a whole.

The main properties proved:
- The first 64 derived bytes split into the AES key followed by the HMAC key.
- A manifest of at least 48 bytes splits exactly into `IV(16) || body || MAC(32)`.
- The MAC is computed over `IV || body`. Comparing hex strings is the same as comparing bytes.
- Decryption is reached only when the MAC matches. On a mismatch the outcome does not depend on the decryption or decoding primitive at all.
- A sealed manifest opens to the decryption of its own ciphertext.
- `parseManifest` relabels every error as the error's own code, or `MANIFEST_PARSE` when there is none, and prefixes `[parseManifest] `.
- The retry policy has a closed-form description: every request but the last timed out, and the last is returned or rethrown once with its code kept. A timeout on every request makes exactly one request plus one per retry, so six with the default budget.
- A failed MAC check is never retried.
- The batch succeeds exactly when every entry does, with one entry per catalog entry, in order. Otherwise it fails with the first failing entry's error.

Some of what the code does is easy to miss, and the model keeps it as written:
- The code never checks that a manifest is at least 48 bytes long. The model slices as JavaScript does, and lemmas describe what short inputs yield.
- The code never checks that the pack key decodes to 32 bytes (there is no invalid-key error). HKDF receives whatever `Buffer.from(key, 'hex')` yields.
- The `try` block of `getStickerPack` wraps `parseManifest` as well as the request. So the timeout test also applies to parse errors, which carry the underlying code or `MANIFEST_PARSE`.
- `getAllStickerPacks` returns an array in `Object.entries` order, not a map keyed by id. Its errors carry stage prefixes but not the pack id.
- The MAC comparison is a plain string `!==`, not a constant-time one.

## Model

| member | source | states |
|---|---|---|
| `Errors.RethrowInjective` | src/plugins/FetchStickerDataPlugin.ts:130 | rethrowing from one stage keeps distinct messages distinct (the caught message is recoverable) |
| `Bytes.JsSlice` | src/plugins/FetchStickerDataPlugin.ts:47-50 | `slice(start, end)` is the ordinary subsequence for in-range indices, and empty when the resolved end is not past the resolved start |
| `Bytes.Zeros` | src/plugins/FetchStickerDataPlugin.ts:34 | the salt `new ArrayBuffer(32)` is 32 zero bytes |
| `Hex.Value` | src/plugins/FetchStickerDataPlugin.ts:30 | a character has a value exactly when it is a hex digit of either case, and that value is the n below 16 whose lower- or upper-case digit the character is |
| `Hex.DigitValue` | src/plugins/FetchStickerDataPlugin.ts:30 | the lower-case and upper-case digits of n both read back as n |
| `Hex.Encode` | src/plugins/FetchStickerDataPlugin.ts:49 | hex encoding doubles the length |
| `Hex.Decode` | src/plugins/FetchStickerDataPlugin.ts:30 | lenient hex decoding yields at most half as many bytes as characters |
| `Hex.DecodeDigitPairs` | src/plugins/FetchStickerDataPlugin.ts:30 | when the first k pairs are digits of either case and pair k is incomplete or holds a non-digit, decoding yields exactly k bytes, byte i being 16 * (value of digit 2i) + (value of digit 2i+1) |
| `Hex.DecodeEncode` | src/plugins/FetchStickerDataPlugin.ts:30 | decoding an encoding gives back the original bytes |
| `Hex.EncodeInjective` | src/plugins/FetchStickerDataPlugin.ts:49-54 | two hex encodings are equal iff the byte strings are, so the `!==` on hex strings is a byte comparison |
| `Manifest.DeriveKeys` | src/plugins/FetchStickerDataPlugin.ts:29-37 | a rejected HKDF call propagates unchanged; otherwise the AES key followed by the HMAC key is the first 64 derived bytes, each key at most 32 bytes |
| `Manifest.DeriveKeysSplit` | src/plugins/FetchStickerDataPlugin.ts:30-36 | HKDF is asked for SHA-256 output of length 512 on the hex-decoded key, with info "Sticker Pack" and a 32-byte zero salt. When it returns at least 64 bytes, the AES key is bytes [0,32) and the HMAC key bytes [32,64) of its output, each 32 bytes |
| `Manifest.SplitManifest` | src/plugins/FetchStickerDataPlugin.ts:46-50 | signed part and MAC part always tile the input, and the MAC part is 32 bytes iff the input has at least 32. From 48 bytes on: IV = raw[0..16], body = raw[16..len-32], MAC = raw[len-32..], signed = IV + body |
| `Manifest.ShortManifestLayout` | src/plugins/FetchStickerDataPlugin.ts:47-50 | for 32 to 47 bytes (which the code does not reject) the body is empty and the MAC covers only a proper prefix of the IV |
| `Manifest.DecryptManifest` | src/plugins/FetchStickerDataPlugin.ts:43-60 | an HKDF rejection comes out unchanged; a successful result implies the keys were derived, the HMAC of the signed part under the HMAC key equals the trailing MAC, and the result is AES-CBC decryption of the body under the AES key and received IV |
| `Manifest.MacMismatchBlocksDecryption` | src/plugins/FetchStickerDataPlugin.ts:52-56 | on a MAC mismatch the result is the code-less error "MAC verification failed.", whatever the decryption primitive is |
| `Manifest.MacMatchDecrypts` | src/plugins/FetchStickerDataPlugin.ts:53-59 | on a manifest of at least 48 bytes whose HMAC over raw[0..len-32] equals raw[len-32..], the result is the decryption of raw[16..len-32] with IV raw[0..16] |
| `Manifest.ShortManifestNeverDecrypted` | src/plugins/FetchStickerDataPlugin.ts:49-56 | a manifest under 32 bytes always fails, at the MAC check once the keys are derived |
| `Manifest.SealedManifestOpens` | src/plugins/FetchStickerDataPlugin.ts:46-59 | `IV \|\| C \|\| HMAC(IV \|\| C)` decrypts to the decryption of C under IV; any other 32 trailing bytes give the MAC failure |
| `Manifest.ParseError` | src/plugins/FetchStickerDataPlugin.ts:72-73 | the rethrown error always has a truthy code: the caught one when truthy, otherwise MANIFEST_PARSE; the message is "[parseManifest] " + the caught message |
| `Manifest.ParseManifest` | src/plugins/FetchStickerDataPlugin.ts:66-75 | succeeds iff decryption and decoding both succeed, with the decoded pack; every failure has a truthy code and the "[parseManifest] " prefix |
| `Manifest.ParseManifestRelabels` | src/plugins/FetchStickerDataPlugin.ts:67-74 | the failure is the relabelled error of the first failing stage: decryption (with the MAC check) or decoding |
| `Manifest.MacMismatchIsManifestParse` | src/plugins/FetchStickerDataPlugin.ts:54-73 | a MAC mismatch surfaces as code MANIFEST_PARSE, message "[parseManifest] MAC verification failed.", independent of the decryption and decoding primitives |
| `Fetch.Attempt` | src/plugins/FetchStickerDataPlugin.ts:90-97 | one run of the `try` block: a failed request's error reaches the `catch` unchanged, otherwise the outcome is `parseManifest` on the response body |
| `Fetch.RetryFrom` | src/plugins/FetchStickerDataPlugin.ts:89-109 | the recursion makes at least one and at most budget + 1 tries, and every failure it throws carries the "[getStickerPack] " prefix |
| `Fetch.GetStickerPack` | src/plugins/FetchStickerDataPlugin.ts:89-97 | a call with retriesRemaining r (default 5) makes between 1 and max(r,0) + 1 requests |
| `Fetch.RetryPolicy` | src/plugins/FetchStickerDataPlugin.ts:98-107 | every try but the last failed with ECONNABORTED. The last try's success is returned as is. Its failure is rethrown once with the same code and the "[getStickerPack] " prefix, and it was a timeout only if the budget was spent |
| `Fetch.PersistentTimeoutExhaustsBudget` | src/plugins/FetchStickerDataPlugin.ts:100-104 | if every try times out, exactly budget + 1 tries are made and the thrown error keeps code ECONNABORTED |
| `Fetch.DefaultBudgetMakesAtMostSixRequests` | src/plugins/FetchStickerDataPlugin.ts:89-104 | with the default budget at most 6 requests are made, and exactly 6 when all of them time out |
| `Fetch.MacFailureNotRetried` | src/plugins/FetchStickerDataPlugin.ts:90-107 | a response failing the MAC check ends the call after one request, with code MANIFEST_PARSE and message "[getStickerPack] [parseManifest] MAC verification failed." |
| `Catalog.Meta` | src/plugins/FetchStickerDataPlugin.ts:122 | `{id, ...value}` has the value's fields plus `id`, and the value's own `id` field, when present, overrides the catalog key |
| `Catalog.AllOrNothing` | src/plugins/FetchStickerDataPlugin.ts:115 | `Promise.all` over the mapped callback, in order: succeeds iff the callback succeeds on every entry, then with its results in entry order; otherwise fails with the error of an entry all of whose predecessors succeeded |
| `Catalog.GetAllStickerPacks` | src/plugins/FetchStickerDataPlugin.ts:114-132 | succeeds iff every entry does, then with exactly one result per catalog entry, in order. Otherwise it fails with the error of an entry all of whose predecessors succeeded |
| `Catalog.FetchEntry` | src/plugins/FetchStickerDataPlugin.ts:116-131 | a fetched entry is `{meta: {id, ...value}, manifest: {title, author, cover}}`; a failed one rethrows the same code with the "[getAllStickerPacks] " prefix |
| `Catalog.FirstFailingEntryFailsBatch` | src/plugins/FetchStickerDataPlugin.ts:115-132 | when entries before i succeed and entry i fails, the batch fails with exactly entry i's error |
| `Catalog.TamperedManifestFailsBatch` | src/plugins/FetchStickerDataPlugin.ts:114-132 | when entry i's manifest fails the MAC check and all earlier entries succeed, the batch fails with MANIFEST_PARSE and "[getAllStickerPacks] [getStickerPack] [parseManifest] MAC verification failed." |

## Left out

- The cryptographic primitives are not modelled, only their interfaces: HKDF, HMAC-SHA256, and AES-256-CBC with PKCS#7 removal (`update` and `final` together). They are library code. The only properties of them any lemma assumes are that HMAC returns 32 bytes and, in the key-split lemma, that HKDF returns at least 64.
- Protobuf decoding and schema loading are not modelled. `src/etc/Stickers.proto` is not part of this model. `Pack` holds the fields the pipeline reads plus the sticker list; a missing cover is `None` (it is emitted as `null`). The `Uint8Array` built on line 70 is a copy of the decrypted buffer (the offset and length arguments are ignored when the first argument is a typed array), so it is the identity on the bytes.
- The unit of HKDF's `length` argument (512 on line 32) is not settled: bits in the WebCrypto API the comment on line 27 cites, bytes in the library's own documentation. The model only asks that HKDF return at least the 64 bytes the two slices take.
- The HTTP request (axios) is replaced by an oracle for the response of each request, and the URL template is not modelled.
- `randomDelay` and its two uses are left out. They use floating-point randomness and timers, and they cannot fail. So is the retry `console.log`.
- The concurrency of `Promise.all` is modelled as a sequential map that stops at the first failing entry in catalog order. Which concurrent rejection wins is a scheduling question.
- Loading the catalog from `stickers.yml` and the webpack plugin class that writes the JSON asset are left out. Both are I/O and build-tool glue. Catalog values are string-to-string maps that hold a `key`, as the `StickerPackJson` type declares. Non-string metadata values are not distinguished.
- Timing-safety of the MAC comparison is not modelled. The code uses a plain `!==`.
- `Manifest.SplitManifest`: the clean `IV || body || MAC` layout is stated only for manifests of at least 48 bytes, because the code performs no length check. Shorter inputs are covered by `ShortManifestLayout` and `ShortManifestNeverDecrypted`.
- A thrown value without a `message` is not modelled. Every error here has a string message.
- Errors are not annotated with the pack id, because the code does not do it.
