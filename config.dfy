/**
 * The per-cipher configuration table of js/src/config.ts: sizes, start
 * counter, endianness, native dispatch index, and the chosen bit/byte codec.
 * The codec helpers come from js/src/utils, which is not part of this model;
 * they are modelled with the codecs of circom/tests/utils.ts (module BitCodec)
 * and their exact inverses.
 */
module Config {
  import opened Wrappers
  import opened BitCodec

  datatype Algorithm = ChaCha20 | Aes256Ctr | Aes128Ctr

  /** The EncryptionAlgorithm string naming the cipher. */
  function Name(alg: Algorithm): string
  {
    match alg
    case ChaCha20 => "chacha20"
    case Aes256Ctr => "aes-256-ctr"
    case Aes128Ctr => "aes-128-ctr"
  }

  /** Which pair of codec functions an entry holds. */
  datatype Codec =
    | WordCodecLE  // bytes -> little-endian 32-bit words -> 32 MSB-first bits per word
    | ByteCodecBE  // bytes -> 8 MSB-first bits per byte

  /** The authenticated cipher `encrypt` runs; the cipher itself is not modelled. */
  datatype Aead = ChaCha20Poly1305 | AesGcm(keyLengthBits: nat)

  datatype AlgorithmConfig = AlgorithmConfig(
    index: nat,
    chunkSize: nat,
    bitsPerWord: nat,
    keySizeBytes: nat,
    ivSizeBytes: nat,
    startCounter: nat,
    blocksPerChunk: nat,
    isLittleEndian: bool,
    codec: Codec,
    aead: Aead)

  /** Bytes covered by one proof chunk. */
  const ChunkBytes: nat := 64
  /** Length of the authentication tag both AEAD modes append. */
  const TagBytes: nat := 16

  /** Block size of the underlying keystream generator (section 2.3 of RFC 8439; FIPS 197, section 3). */
  function BlockBytes(aead: Aead): nat
  {
    match aead
    case ChaCha20Poly1305 => 64
    case AesGcm(_) => 16
  }

  /** inc32 of NIST SP 800-38D: the low 32 bits of the counter block incremented modulo 2^32. */
  function Inc32(counter: nat): nat
  {
    (counter + 1) % 0x1_0000_0000
  }

  /**
   * The block counter of the first keystream block that encrypts the plaintext:
   * 1 for ChaCha20-Poly1305, whose block 0 is spent on the Poly1305 key (section 2.8 of
   * RFC 8439); inc32(J0) for AES-GCM with a 96-bit IV, where J0 = IV || 0^31 || 1
   * (NIST SP 800-38D, section 7.1).
   */
  function FirstKeystreamCounter(aead: Aead): nat
  {
    match aead
    case ChaCha20Poly1305 => 1
    case AesGcm(_) => Inc32(1)
  }

  /** The CONFIG table. */
  function CONFIG(alg: Algorithm): (c: AlgorithmConfig)
    ensures c.chunkSize * c.bitsPerWord / 8 == ChunkBytes
    ensures c.blocksPerChunk * BlockBytes(c.aead) == ChunkBytes
    ensures c.startCounter == FirstKeystreamCounter(c.aead)
    ensures 8 * c.ivSizeBytes == 96
    ensures c.aead.AesGcm? ==> c.aead.keyLengthBits == 8 * c.keySizeBytes
    ensures c.isLittleEndian <==> c.codec == WordCodecLE
    ensures c.bitsPerWord == if c.codec == WordCodecLE then 32 else 8
    ensures c.index < 0x100
  {
    match alg
    case ChaCha20 =>
      AlgorithmConfig(
        index := 0, chunkSize := 16, bitsPerWord := 32, keySizeBytes := 32,
        ivSizeBytes := 12, startCounter := 1, blocksPerChunk := 1,
        isLittleEndian := true, codec := WordCodecLE, aead := ChaCha20Poly1305)
    case Aes256Ctr =>
      AlgorithmConfig(
        index := 1, chunkSize := 64, bitsPerWord := 8, keySizeBytes := 32,
        ivSizeBytes := 12, startCounter := 2, blocksPerChunk := 4,
        isLittleEndian := false, codec := ByteCodecBE, aead := AesGcm(256))
    case Aes128Ctr =>
      AlgorithmConfig(
        index := 2, chunkSize := 64, bitsPerWord := 8, keySizeBytes := 16,
        ivSizeBytes := 12, startCounter := 2, blocksPerChunk := 4,
        isLittleEndian := false, codec := ByteCodecBE, aead := AesGcm(128))
  }

  /** The native dispatch ids are pairwise distinct. */
  lemma IndexInjective(a: Algorithm, b: Algorithm)
    ensures CONFIG(a).index == CONFIG(b).index ==> a == b
  {
  }

  /** Key sizes are 32/32/16 bytes, IVs 12 bytes; only chacha20 is little-endian. */
  lemma KeyAndIvSizes(alg: Algorithm)
    ensures CONFIG(alg).keySizeBytes == (if alg == Aes128Ctr then 16 else 32)
    ensures CONFIG(alg).ivSizeBytes == 12
    ensures CONFIG(alg).isLittleEndian <==> alg == ChaCha20
  {
  }

  /** Bytes per codec word: 4 for the 32-bit word codec, 1 for the byte codec. */
  function WordBytes(alg: Algorithm): nat
  {
    CONFIG(alg).bitsPerWord / 8
  }

  /** The entry's uint8ArrayToBits. */
  function Uint8ArrayToBits(alg: Algorithm, bytes: seq<Byte>): seq<Bit>
  {
    match CONFIG(alg).codec
    case WordCodecLE => Flatten(WordRows(PackLE(bytes)))
    case ByteCodecBE => BitsBE(bytes)
  }

  /** The error for a bit count that is no whole number of codec words. */
  function CodecError(alg: Algorithm): Error
  {
    Error("bit count is not a multiple of " + (if CONFIG(alg).bitsPerWord == 32 then "32" else "8"))
  }

  /** The entry's bitsToUint8Array: the reverse composition of Uint8ArrayToBits. */
  function BitsToUint8Array(alg: Algorithm, bits: seq<Bit>): Result<seq<Byte>, Error>
  {
    if |bits| % CONFIG(alg).bitsPerWord != 0 then Err(CodecError(alg))
    else
      match CONFIG(alg).codec
      case WordCodecLE => Ok(UnpackLE(WordsFromBits(bits)))
      case ByteCodecBE => Ok(BytesFromBitsBE(bits))
  }

  /** Expanding a whole number of codec words gives 8 bits per byte. */
  lemma BitsLength(alg: Algorithm, bytes: seq<Byte>)
    requires |bytes| % WordBytes(alg) == 0
    ensures |Uint8ArrayToBits(alg, bytes)| == 8 * |bytes|
  {
    if alg == ChaCha20 {
      WordRowsValues(PackLE(bytes));
      FlattenLength(WordRows(PackLE(bytes)), 32);
    } else {
      BitsBELength(bytes);
    }
  }

  /** bitsToUint8Array undoes uint8ArrayToBits on a whole number of codec words. */
  lemma CodecRoundTrip(alg: Algorithm, bytes: seq<Byte>)
    requires |bytes| % WordBytes(alg) == 0
    ensures BitsToUint8Array(alg, Uint8ArrayToBits(alg, bytes)) == Ok(bytes)
  {
    if alg == ChaCha20 {
      assert WordBytes(alg) == 4;
      WordCodecRoundTrip(bytes);
    } else {
      ByteCodecRoundTrip(alg, bytes);
    }
  }

  /** The round trip through 32-bit little-endian words. */
  lemma WordCodecRoundTrip(bytes: seq<Byte>)
    requires |bytes| % 4 == 0
    ensures BitsToUint8Array(ChaCha20, Uint8ArrayToBits(ChaCha20, bytes)) == Ok(bytes)
  {
    var words := PackLE(bytes);
    var bits := Flatten(WordRows(words));
    assert Uint8ArrayToBits(ChaCha20, bytes) == bits;
    WordRowsValues(words);
    FlattenLength(WordRows(words), 32);
    WholeWords(|words|);
    WordBitsRoundTrip(words);
    PackLERoundTrip(bytes);
  }

  lemma WholeWords(n: nat)
    ensures (32 * n) % 32 == 0
  {
  }

  /** The round trip through MSB-first bytes. */
  lemma ByteCodecRoundTrip(alg: Algorithm, bytes: seq<Byte>)
    requires alg != ChaCha20
    ensures BitsToUint8Array(alg, Uint8ArrayToBits(alg, bytes)) == Ok(bytes)
  {
    assert Uint8ArrayToBits(alg, bytes) == BitsBE(bytes);
    BitsBELength(bytes);
    BitsBERoundTrip(bytes);
  }

  /**
   * bitsToUint8Array succeeds exactly on a whole number of codec words, and then
   * uint8ArrayToBits of its result gives the bits back.
   */
  lemma CodecRoundTripBits(alg: Algorithm, bits: seq<Bit>)
    ensures BitsToUint8Array(alg, bits).Ok? <==> |bits| % CONFIG(alg).bitsPerWord == 0
    ensures BitsToUint8Array(alg, bits).Ok? ==>
      |BitsToUint8Array(alg, bits).value| % WordBytes(alg) == 0 &&
      Uint8ArrayToBits(alg, BitsToUint8Array(alg, bits).value) == bits
  {
    if |bits| % CONFIG(alg).bitsPerWord == 0 {
      if alg == ChaCha20 {
        var words := WordsFromBits(bits);
        WordBitsOfWordsFromBits(bits);
        UnpackLERoundTrip(words);
        FlattenLength(WordByteRows(words), 4);
      } else {
        BitsBEOfBytesFromBits(bits);
      }
    }
  }

  /**
   * encrypt / makeAesCtr: the AEAD's sealed output (ciphertext followed by the tag)
   * cut to the input's length with slice(0, data.length).
   */
  function Encrypt(data: seq<Byte>, sealed: seq<Byte>): (ct: seq<Byte>)
    ensures |ct| == if |sealed| < |data| then |sealed| else |data|
    ensures ct <= sealed
  {
    if |sealed| < |data| then sealed else sealed[..|data|]
  }

  /** When the AEAD appends its 16-byte tag, encrypt returns exactly as many bytes as its input. */
  lemma EncryptDropsTag(data: seq<Byte>, sealed: seq<Byte>)
    requires |sealed| == |data| + TagBytes
    ensures |Encrypt(data, sealed)| == |data|
    ensures Encrypt(data, sealed) + sealed[|data|..] == sealed
  {
  }
}
