# zk-tls-circom-symmetric: a Dafny model of the witness and operator layer

This project models the JavaScript layer of zk-tls-circom-symmetric. That layer
sits between the HTTPS-proving client and the zero-knowledge circuits for
ChaCha20, AES-256-CTR and AES-128-CTR. The model covers five parts:

- **Bit codecs of the circuit tests** (`BitCodec`). These take bytes to
  MSB-first bits, bytes to little-endian 32-bit words, a number to its greedy
  binary digits, and words to 32-bit rows. Each is an imperative method with a
  loop, proved against a specification function. The proved round trips show
  the encodings lose nothing.
- **The per-cipher configuration table** (`Config`). This is every numeric
  constant of each cipher. The model proves the constants consistent with the
  64-byte chunk, the cipher's block size, the first keystream counter of the
  cipher's AEAD construction, and the codec's word width. It also models the
  codec pair (bits to bytes and back) and `encrypt`'s truncation of the AEAD
  output.
- **The gnark helpers** (`GnarkUtils`, with `Text`, `Base64` and `Json`).
  This part covers:
  - artifact names;
  - the Go architecture name;
  - native library paths;
  - the load-error classification;
  - the ordered load sequence;
  - counter deserialisation;
  - the gnark witness. This is the `JSON.stringify` text of the proof
    parameters, encoded as UTF-8. The model uses an RFC 4648 section 4 Base64
    encoder and ECMA-262 QuoteJSONString escaping.
- **The gnark operator** (`GnarkOperator`). The native library is loaded once
  per process and shared. The algorithm is initialised once per operator.
  Every `Prove` is followed by `Decode` and `Free` of its result. The model
  also builds the `Verify` payload. The shape of the native-call trace is in
  `NativeTrace`, and the per-call outcomes the operator's methods promise are
  in `GnarkProtocol`.
- **The snarkjs operator** (`SnarkJsOperator`). It caches the circuit WASM,
  the zkey and the witness calculator, including cached failures. The model
  patches the WebAssembly memory around calculator creation and restores it
  afterwards. The verification key is exported once. `release` is modelled.

Everything outside that layer is a host class in `Host`:
- the file fetcher;
- the koffi native library;
- the Go prover and verifier;
- the snarkjs package;
- JavaScript's `JSON.parse` of the prover's output;
- JavaScript's global `WebAssembly.Memory`.

Each host method returns an arbitrary result. It appends the call and that
result to a ghost trace. The operators' contracts are stated over those traces:
which calls happen, in what order, with which arguments, and what is returned
from their results.

Two behaviours of the source worth noting:
- In `groth16Verify`, the native `Verify` slice gets `len` and `cap` from the
  JavaScript (UTF-16) length of the JSON text, not from the byte count of the
  UTF-8 data it points to. The model keeps this. It proves the two agree
  exactly when the proof text is ASCII (`GnarkOperator.VerifySliceLength`).
- The snarkjs caches hold promises. A rejected fetch therefore stays cached
  until `release`. The model caches `Result` values to match.

## Model

| member | source | states |
|---|---|---|
| BitCodec.Uint8ArrayToBitsBE | circom/tests/utils.ts:12-24 | Emits 8 bits per byte, MSB first. Bit j of byte i is at 8i+j. Regrouping the bits MSB-first into bytes gives the input back. |
| BitCodec.ToUint32Array | circom/tests/utils.ts:26-33 | Returns a fresh array of byteLength/4 words (truncated). Word i is the little-endian value of bytes 4i..4i+3 of the viewed range. |
| BitCodec.NumToBitsNumerical | circom/tests/utils.ts:49-58 | Returns exactly bitCount digits, 32 by default: the greedy digits GreedyBits(num, bitCount). For 0 <= num < 2^bitCount digit j is bit bitCount-1-j of num, and the digits read back MSB-first to num. |
| BitCodec.UintArray32ToBits | circom/tests/utils.ts:39-47 | Returns one 32-digit row per word, in word order. Every in-range word's row reads back MSB-first to that word. |
| BitCodec.GreedyBitsValue | circom/tests/utils.ts:51-55 | The greedy digit loop gives digits whose MSB-first value is num, when num fits in n bits. |
| BitCodec.GreedyBitsAt | circom/tests/utils.ts:51-55 | For an in-range num, digit j of the loop is bit n-1-j of num. |
| BitCodec.GreedyBitsDigits | circom/tests/utils.ts:49-58 | For 0 <= num < 2^n the greedy digits are num's MSB-first binary digits, and they read back to num. |
| BitCodec.GreedyLoopBits | circom/tests/utils.ts:51-55 | Running the halving loop from the digits produced so far, with remainder rest and m digits to go, appends exactly GreedyBits(rest, m). |
| BitCodec.GreedyBitsOfValue | circom/tests/utils.ts:49-58 | Expanding the value of any n-digit bit string gives that string back, so the expansion is onto the n-bit strings. |
| BitCodec.FromBitsMsbBound | circom/tests/utils.ts:51-55 | The MSB-first value of n bits is below 2^n. |
| BitCodec.BitsBEAt | circom/tests/utils.ts:14-21 | Entry k of the BE expansion is bit 7 - k%8 of byte k/8. |
| BitCodec.BitsBERoundTrip | circom/tests/utils.ts:12-24 | Regrouping the BE bits of any bytes into bytes gives those bytes back. |
| BitCodec.BitsBEOfBytesFromBits | circom/tests/utils.ts:12-24 | Every bit string whose length is a multiple of 8 is the BE expansion of its regrouped bytes. This is the other direction of the round trip. |
| BitCodec.ByteBitsBEValue | circom/tests/utils.ts:15-21 | The eight digits taken from a byte recombine MSB-first to that byte. |
| BitCodec.WordBytesOfWordLE | circom/tests/utils.ts:30 | Writing back the little-endian word of four bytes gives those bytes. |
| BitCodec.WordLEOfWordBytes | circom/tests/utils.ts:30 | Reading the four little-endian bytes of a 32-bit word gives the word. |
| BitCodec.PackLERoundTrip | circom/tests/utils.ts:26-33 | For a byte count that is a multiple of 4, unpacking the packed words gives the bytes back. |
| BitCodec.UnpackLERoundTrip | circom/tests/utils.ts:26-33 | Packing the little-endian bytes of 32-bit words gives the words back. |
| BitCodec.WordRowsValues | circom/tests/utils.ts:39-47 | There is one 32-digit row per word, and row i reads back to word i. |
| BitCodec.WordRowsRoundTrip | circom/tests/utils.ts:26-47 | Bytes whose count is a multiple of 4 can be recovered from the rows of their little-endian words. |
| BitCodec.WordBitsAt | circom/tests/utils.ts:39-47 | Flattened digit k is bit 31 - k%32 of word k/32. |
| BitCodec.WordBitsRoundTrip | circom/tests/utils.ts:39-58 | Regrouping the flattened rows into 32-bit words gives the words back. |
| BitCodec.WordBitsGroup | circom/tests/utils.ts:39-47 | The 32 flattened digits of word i are the greedy digits of word i. |
| BitCodec.WordBitsOfWordsFromBits | circom/tests/utils.ts:39-58 | Every bit string whose length is a multiple of 32 is the flattened rows of its regrouped words. |
| BitCodec.FromBitsMsbInjective | circom/tests/utils.ts:49-58 | Two bit strings of equal length with the same MSB-first value are equal. |
| Config.CONFIG | js/src/config.ts:9-64 | For every cipher: chunkSize words of bitsPerWord bits fill the 64-byte chunk; blocksPerChunk blocks fill it; startCounter is the first keystream counter of the cipher's AEAD (1 for ChaCha20-Poly1305, inc32(J0) = 2 for GCM); the IV is 96 bits; the AES key bits equal 8 * keySizeBytes; little-endian exactly for the 32-bit-word codec; index fits a byte. |
| Config.IndexInjective | js/src/config.ts:11-50 | Different ciphers have different indices. |
| Config.KeyAndIvSizes | js/src/config.ts:14-59 | The key is 16 bytes for AES-128 and 32 bytes otherwise. The IV is 12 bytes. Only ChaCha20 is little-endian. |
| Config.BitsLength | js/src/config.ts:21-23 | uint8ArrayToBits yields 8 bits per byte, for whole codec words. |
| Config.CodecRoundTrip | js/src/config.ts:21-27 | bitsToUint8Array(uint8ArrayToBits(b)) == b, for whole codec words. |
| Config.WordCodecRoundTrip | js/src/config.ts:20-27 | For the 32-bit little-endian word codec, the bits of a whole number of words convert back to the bytes. |
| Config.ByteCodecRoundTrip | js/src/config.ts:44-46 | For the MSB-first byte codec, the bits of any bytes convert back to the bytes. |
| Config.CodecRoundTripBits | js/src/config.ts:24-27 | bitsToUint8Array succeeds iff the bit count is a multiple of the word width. On success, uint8ArrayToBits of the result is the input. |
| Config.Encrypt | js/src/config.ts:28-32 | The ciphertext is a prefix of the sealed AEAD output, of length min(sealed, data). |
| Config.EncryptDropsTag | js/src/config.ts:66-80 | With a 16-byte tag appended, the ciphertext has exactly the data's length, and what is dropped is the tag. |
| Text.Utf8LengthVsUtf16 | js/src/gnark/operator.ts:48-55 | The UTF-8 byte count is at least the UTF-16 length, which is at least the character count. The byte count equals the UTF-16 length iff the text is ASCII. |
| Text.AsciiUtf8 | js/src/gnark/utils.ts:95-97 | TextEncoder gives ASCII text one byte per character, equal to its code. |
| Text.NatToDecimal | js/src/gnark/utils.ts:114 | The JSON text of a counter is a non-empty string of decimal digits. |
| Text.DecimalRoundTrip | js/src/gnark/utils.ts:110-114 | The decimal text of a counter reads back to the counter and has no superfluous leading zero. |
| Base64.Encode | js/src/gnark/utils.ts:108-111 | The output has 4 * ceil(n/3) characters. |
| Base64.EncodeAlphabet | js/src/gnark/utils.ts:108-111 | Every output character is from the RFC 4648 section 4 alphabet or is the '=' pad. |
| Base64.RoundTrip | js/src/gnark/utils.ts:108-111 | Decoding the encoding of any bytes gives them back. |
| Base64.EncodeIsPlain | js/src/gnark/utils.ts:108-114 | Base64 text is ASCII, with no quote, backslash or control character, so JSON carries it unescaped. |
| Json.UnescapeEscape | js/src/gnark/utils.ts:114 | A JSON reader recovers every string JSON.stringify escapes. |
| Json.EscapePlain | js/src/gnark/utils.ts:114 | A string without quote, backslash or control characters is written as it is. |
| Json.EscapeAscii | js/src/gnark/operator.ts:48 | The escaped text is ASCII iff the string is. |
| Json.QuoteAscii | js/src/gnark/operator.ts:48 | The quoted string is ASCII iff the string is. |
| Json.StringifyAscii | js/src/gnark/utils.ts:114 | An object with ASCII names and ASCII or numeric values stringifies to ASCII text. |
| Json.StringifyAsciiIff | js/src/gnark/operator.ts:40-48 | When all other members are ASCII, the object text is ASCII iff the one string member is. |
| GnarkUtils.ArtifactNames | js/src/gnark/utils.ts:15-21 | The pk.ext and r1cs.ext names of every cipher are among the files the key generator writes (gnark/keygen/keygen.go lines 41-42, 80-81 and 119-120). Proving keys and constraint systems never share a name. Each kind is injective in the cipher. |
| GnarkUtils.GoArchMap | js/src/gnark/utils.ts:25-53 | The Go architecture name is never "x64". It is unchanged iff the Node name is not "x64". x64 maps to x86_64. The mapping is idempotent. |
| GnarkUtils.LibPathsDistinct | js/src/gnark/utils.ts:56-64 | The verify and prove library paths for a platform and arch are different. |
| GnarkUtils.ContainsToLower | js/src/gnark/utils.ts:85 | A message containing a text also contains it after both are lower-cased. |
| GnarkUtils.ClassifyLoadErrorCases | js/src/gnark/utils.ts:80-92 | "not a mach-o" is checked first and gives the not-compatible error. Otherwise a message containing "no such file" (in any letter case, "No such file" included) gives the not-built error. Any other message is rethrown as it is. New messages name the platform/arch and differ from each other. |
| GnarkUtils.UpperNoSuchFile | js/src/gnark/utils.ts:85 | A message containing "No such file" passes the lower-cased "no such file" test. |
| GnarkUtils.NewMessagesNameHost | js/src/gnark/utils.ts:82-87 | Both replacement messages contain the "(platform/arch)" suffix, and they differ from each other. |
| GnarkUtils.LoadOutcomeCases | js/src/gnark/utils.ts:66-92 | Loading succeeds iff the verify load and then the prove load succeed, with distinct paths. A failure is the classification of the first failing load's error. |
| GnarkUtils.LoadGnarkLib | js/src/gnark/utils.ts:29-93 | If koffi is missing, the result is the "Koffi not available" error and no native call is made. Otherwise the state is reset, then the verify and prove libraries are loaded in order, stopping at the first failure. The result is the library pair or the classified error. Loading makes no prove, decode or free call. |
| GnarkUtils.BytesLength | js/src/gnark/utils.ts:118 | Converting bits back gives one byte per 8 bits. |
| GnarkUtils.CounterRoundTrip | js/src/gnark/utils.ts:117-121 | Deserialising the codec bits of a counter's 4 bytes, in the cipher's byte order, gives the counter. |
| GnarkUtils.DeSerialiseCounterCases | js/src/gnark/utils.ts:117-121 | Deserialising succeeds iff the bits form whole codec words and there are at least 32. A 32-bit counter re-expands to the same bits. |
| GnarkUtils.EncodeFieldCases | js/src/gnark/utils.ts:108-111 | A field encodes iff its flattened bits form whole codec words. The Base64 text then decodes to bytes whose codec bits are exactly the field's bits. |
| GnarkUtils.ProofParamsContents | js/src/gnark/utils.ts:99-112 | The proof parameters exist iff every field and the counter convert. They are then exactly cipher, key, nonce, counter and input, in that order, and each carries its field's bits. |
| GnarkUtils.ParamsAreAscii | js/src/gnark/utils.ts:106-112 | Every member name and value of the proof parameters is ASCII. |
| GnarkUtils.FieldIsAscii | js/src/gnark/utils.ts:108-111 | Every encoded field is ASCII. |
| GnarkUtils.WitnessIsAscii | js/src/gnark/utils.ts:114-115 | The witness JSON text is ASCII. The witness is its character codes, one byte per character. Its length equals the text's JavaScript length. |
| NativeTrace.BalancedProveIsFreed | js/src/gnark/operator.ts:27-31 | In a balanced trace, every Prove is immediately followed by Decode of its (r0, r1) and then Free of its r0. |
| NativeTrace.BalancedFreeFollowsProve | js/src/gnark/operator.ts:27-31 | In a balanced trace, every Free releases the pointer of the Prove two calls earlier. No pointer is freed that Prove did not return. |
| NativeTrace.BalancedSetupSnoc | js/src/gnark/operator.ts:49-58 | Appending a call that neither proves, decodes nor frees keeps a balanced trace balanced. |
| NativeTrace.BalancedProveSnoc | js/src/gnark/operator.ts:18-33 | Appending a Prove, the Decode of its (r0, r1) and the Free of its r0 keeps a balanced trace balanced. |
| GnarkOperator.VerifyJsonContents | js/src/gnark/operator.ts:37-48 | The verify JSON exists iff the public signals form whole codec words. It is then cipher, proof and publicSignals, in that order, and the signals carry their bits. |
| GnarkOperator.VerifySliceLength | js/src/gnark/operator.ts:48-55 | The slice has len == cap, which is at most the data's byte count. len equals the byte count iff the proof text is ASCII. |
| GnarkOperator.GnarkModule.constructor | js/src/gnark/operator.ts:6 | The shared library promise starts unset. |
| GnarkOperator.GnarkModule.Lib | js/src/gnark/operator.ts:62-63 | The first call loads the library as LoadGnarkLib does. Later calls return the stored outcome, an error included, and make no native call. Either way the calls made touch no Go buffer. |
| GnarkOperator.GnarkZkOperator.constructor | js/src/gnark/operator.ts:8-12 | The operator keeps its cipher, fetcher and library, and starts with initDone false. |
| GnarkOperator.GnarkZkOperator.GenerateWitness | js/src/gnark/operator.ts:15-17 | Returns generateGnarkWitness of the operator's cipher. |
| GnarkOperator.GnarkZkOperator.InitGnark | js/src/gnark/operator.ts:61-83 | It loads or reuses the shared library. If that failed or initDone is set, nothing is fetched. Otherwise it fetches pk.ext and r1cs.ext from gnark. When both arrive, it calls InitAlgorithm(CONFIG index, the pk slice, the r1cs slice) and sets initDone. When a fetch fails, it returns that error. The trace stays balanced. |
| GnarkOperator.GnarkZkOperator.InitAlgorithmOnce | js/src/gnark/operator.ts:68-80 | On an operator not yet initialised, it fetches pk.ext and then r1cs.ext from gnark. If both arrive, it makes exactly one InitAlgorithm call with the CONFIG index and both slices, and only then sets initDone. Otherwise it rejects with the first failure, makes no native call and leaves initDone unset. The trace stays balanced. |
| GnarkOperator.GnarkZkOperator.Groth16Prove | js/src/gnark/operator.ts:18-33 | First it runs initGnark, with InitGnark's outcome: the shared library is loaded only if unset; after a failed load or on an initialised operator nothing is fetched or initialised; otherwise pk.ext then r1cs.ext are fetched and one InitAlgorithm call is made, and initDone is set only on success. So InitAlgorithm runs at most once per operator across calls. When init succeeds, exactly Prove(witness slice), Decode(r0, r1) and Free(r0) follow, in that order; the result is the one JSON.parse recorded in the parser's trace, applied to exactly the bytes that Decode returned; no parse happens on an init error. An init error is returned with no prover call. |
| GnarkOperator.GnarkZkOperator.Groth16Verify | js/src/gnark/operator.ts:34-58 | First it runs initGnark, with the same outcome as InitGnark (load once, initialise at most once, initDone set only on success). When init succeeds, the one Verify call receives the VerifySlice payload, and the answer is true iff it returned 1. A codec error or an init error makes no Verify call. |
| SnarkJsOperator.ArtifactNames | js/src/snarkjs/operator.ts:123-131 | The WASM and zkey names never coincide, and each is injective in the cipher. |
| SnarkJsOperator.ZkeyResult.constructor | js/src/snarkjs/operator.ts:127-131 | The zkey result holds the fetched data and no verification key. |
| SnarkJsOperator.SnarkJsZkOperator.constructor | js/src/snarkjs/operator.ts:33-42 | All three caches start empty. |
| SnarkJsOperator.SnarkJsZkOperator.CircuitWasm | js/src/snarkjs/operator.ts:47 | The first use makes one fetch of "alg/circuit.wasm" from snarkjs and caches its outcome. Later uses return the cached outcome without fetching. |
| SnarkJsOperator.SnarkJsZkOperator.Zkey | js/src/snarkjs/operator.ts:127-131 | The first use makes one fetch of "alg/circuit_final.zkey" and caches a fresh zkey result, or the failure. Later uses reuse it. |
| SnarkJsOperator.SnarkJsZkOperator.WitnessCalculator | js/src/snarkjs/operator.ts:48-73 | It is created once. Without getWtnsCalculator it is none and no call is made. Otherwise it is created from the cached WASM while WebAssembly.Memory is the fixed 5-page constructor. Memory is restored afterwards, on success or failure. |
| SnarkJsOperator.SnarkJsZkOperator.GenerateWitness | js/src/snarkjs/operator.ts:46-91 | The witness is computed from the input without out. It uses the calculator when there is one, otherwise calculate on the WASM. A WASM or calculator error is returned with no calculation. |
| SnarkJsOperator.SnarkJsZkOperator.Groth16Prove | js/src/snarkjs/operator.ts:92-100 | The proof is groth16.prove on the zkey data and the witness. On first use the zkey is the one fetch of "alg/circuit_final.zkey" from snarkjs, and the cached data is what it returned; later uses fetch nothing. A zkey error is returned with no snarkjs call. |
| SnarkJsOperator.SnarkJsZkOperator.Groth16Verify | js/src/snarkjs/operator.ts:101-115 | On first use the zkey is the one fetch of "alg/circuit_final.zkey" from snarkjs; later uses share the cached zkey. The verification key is exported from that zkey's data only when the zkey result has none, and is kept on success. The result is groth16.verify with that key, the signals and the proof. |
| SnarkJsOperator.SnarkJsZkOperator.Release | js/src/snarkjs/operator.ts:116-120 | It empties all three caches. |

## Left out

- GnarkOperator.GnarkZkOperator.Groth16Prove: the host's `koffi.decode` never
  throws. The source has no try/finally around it, so a throwing decode would
  skip `free(res.r0)`; the "every Prove is freed" trace property relies on this.
- BitCodec.NumToBitsNumerical: `num` is an integer. A fractional, NaN or
  beyond-2^53 JavaScript number, for which the greedy loop emits other digits
  (2.5 with bitCount 2 gives [1, 0]), is not modelled.
- Json.Escape: a Dafny `char` is a Unicode scalar value, so a string holding a
  lone surrogate, which `JSON.stringify` writes as a `\udXXX` escape, is not
  modelled.
- The proof protocol that drives the operators is not part of this model. This
  covers chunking, the counter per chunk and public signal layout. Those files
  are not modelled.
- The `js/src/utils` codec helpers are not part of this model. They are
  modelled by their circom test equivalents: BE bits per byte, or LE 32-bit
  words with MSB-first rows. Their bits-to-bytes direction returns an error,
  rather than an unspecified value, when the bit count is not a whole number of
  words.
- GnarkUtils.DeSerialiseCounter: it reads the first four bytes of the converted
  array. It assumes `bytes.buffer` is exactly those bytes. A view over a larger
  pooled buffer is not modelled.
- Text.ToLower: it lower-cases A to Z only. The full Unicode `toLowerCase`
  changes no character that matters for the "no such file" test.
- The koffi details are not modelled. This covers struct layouts, function
  signature binding, symbol-resolution errors and pointers. A native call is a
  host method returning an arbitrary result.
- Host.ProofParser.ParseProof: JSON.parse of the decoded proof text and UTF-8
  decoding are abstract. The proof object is an arbitrary value from the host,
  recorded in the parser's trace next to the bytes it was parsed from. Parsing
  the same bytes twice is not promised to give the same object.
- Failure of `require('snarkjs')` when the operator is built is not modelled.
  The package is always present.
- Concurrency and interleaving of promises are not modelled. Every await
  completes before the next step. Two overlapping `initGnark` calls could both
  initialise. Overlapping witness generations could see each other's patched
  `WebAssembly.Memory`.
- GnarkOperator.GnarkZkOperator.InitGnark: `Promise.all` rejects with whichever
  fetch fails first in time. The model fixes the order: pk first, then r1cs.
- `proof['proofJson']` is taken to be a string. Other JSON value types in that
  position are not modelled.
- The `join(__dirname, ...)` step is left out. Paths are kept relative to the
  binary directory `../../bin/gnark`.
- The ciphers themselves are not modelled. ChaCha20-Poly1305 and AES-GCM
  through `subtle` are host values, and `encrypt` only truncates their output.
- Logger arguments are not modelled. They are passed through and have no effect
  on results.
- The InitAlgorithm status byte is ignored by the source, and the model ignores
  it too.
- BitCodec.Uint8ArrayToBitsBE: `number[]` inputs outside 0..255 are not
  modelled. The input is a byte array.
- Scripts, the key generator, file fetching and the tests are not modelled.
  The key generator's output names are used only to check the artifact names.
