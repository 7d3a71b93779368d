/**
 * js/src/gnark/utils.ts: the naming of the Go artifacts and shared libraries,
 * loading the libraries (with the classification of load errors), and the
 * JSON witness the native prover consumes.
 */
module GnarkUtils {
  import opened Wrappers
  import opened BitCodec
  import opened Config
  import Text
  import Base64
  import Json
  import opened ZkTypes
  import opened Host
  import opened NativeTrace

  // ---------------------------------------------------------------------------
  // Names
  // ---------------------------------------------------------------------------

  /** ALGS_MAP[alg].ext */
  function Ext(alg: Algorithm): string
  {
    match alg
    case ChaCha20 => "chacha20"
    case Aes128Ctr => "aes128"
    case Aes256Ctr => "aes256"
  }

  /** The proving key artifact, fetched from engine 'gnark'. */
  function PkName(alg: Algorithm): string
  {
    "pk." + Ext(alg)
  }

  /** The constraint system artifact, fetched from engine 'gnark'. */
  function R1csName(alg: Algorithm): string
  {
    "r1cs." + Ext(alg)
  }

  /** The files gnark/keygen/keygen.go writes for the three circuits. */
  function KeygenArtifacts(): set<string>
  {
    {"r1cs.chacha20", "pk.chacha20", "r1cs.aes128", "pk.aes128", "r1cs.aes256", "pk.aes256"}
  }

  /**
   * Every algorithm fetches a proving key and a constraint system that keygen
   * writes, and no two algorithms fetch the same file.
   */
  lemma ArtifactNames(a: Algorithm, b: Algorithm)
    ensures PkName(a) in KeygenArtifacts() && R1csName(a) in KeygenArtifacts()
    ensures PkName(a) != R1csName(b)
    ensures PkName(a) == PkName(b) ==> a == b
    ensures R1csName(a) == R1csName(b) ==> a == b
  {
    ArtifactsWritten(a);
    assert PkName(a)[1] == 'k' && R1csName(b)[1] == '1';
    ExtInjective(a, b);
    if PkName(a) == PkName(b) {
      assert PkName(a)[3..] == Ext(a) && PkName(b)[3..] == Ext(b);
    }
    if R1csName(a) == R1csName(b) {
      assert R1csName(a)[5..] == Ext(a) && R1csName(b)[5..] == Ext(b);
    }
  }

  lemma ArtifactsWritten(a: Algorithm)
    ensures PkName(a) in KeygenArtifacts() && R1csName(a) in KeygenArtifacts()
  {
    match a {
      case ChaCha20 => assert PkName(a) == "pk.chacha20" && R1csName(a) == "r1cs.chacha20";
      case Aes128Ctr => assert PkName(a) == "pk.aes128" && R1csName(a) == "r1cs.aes128";
      case Aes256Ctr => assert PkName(a) == "pk.aes256" && R1csName(a) == "r1cs.aes256";
    }
  }

  lemma ExtInjective(a: Algorithm, b: Algorithm)
    ensures Ext(a) == Ext(b) ==> a == b
  {
    assert |Ext(ChaCha20)| == 8 && |Ext(Aes128Ctr)| == 6 && |Ext(Aes256Ctr)| == 6;
    assert Ext(Aes128Ctr)[3] == '1' && Ext(Aes256Ctr)[3] == '2';
  }

  /** ARCH_MAP[arch] || arch: the Go name of a Node.js architecture. */
  function GoArch(arch: string): string
  {
    if arch == "x64" then "x86_64" else arch
  }

  /** Only x64 is renamed; the result is already a Go name, so mapping again changes nothing. */
  lemma GoArchMap(arch: string)
    ensures GoArch(arch) != "x64"
    ensures GoArch(arch) == arch <==> arch != "x64"
    ensures arch == "x64" ==> GoArch(arch) == "x86_64"
    ensures GoArch(GoArch(arch)) == GoArch(arch)
  {
  }

  const BinPath: string := "../../bin/gnark"

  datatype LibKind = VerifyLib | ProveLib

  function KindName(kind: LibKind): string
  {
    match kind
    case VerifyLib => "verify"
    case ProveLib => "prove"
  }

  /** `${BIN_PATH}/${platform}-${arch}-lib${kind}.so`, before it is joined with the module directory. */
  function LibPath(platform: string, arch: string, kind: LibKind): string
  {
    BinPath + "/" + platform + "-" + arch + "-lib" + KindName(kind) + ".so"
  }

  /** The two libraries live at different paths for every platform and architecture. */
  lemma LibPathsDistinct(platform: string, arch: string)
    ensures LibPath(platform, arch, VerifyLib) != LibPath(platform, arch, ProveLib)
    ensures |LibPath(platform, arch, VerifyLib)| == |LibPath(platform, arch, ProveLib)| + 1
  {
  }

  // ---------------------------------------------------------------------------
  // Loading the libraries
  // ---------------------------------------------------------------------------

  const KoffiMissingMessage: string := "Koffi not available, cannot use gnark"

  function HostSuffix(platform: string, arch: string): string
  {
    "(" + platform + "/" + arch + ")"
  }

  function NotCompatibleMessage(platform: string, arch: string): string
  {
    "Gnark library not compatible with OS/arch " + HostSuffix(platform, arch)
  }

  function NotBuiltMessage(platform: string, arch: string): string
  {
    "Gnark library not built for OS/arch " + HostSuffix(platform, arch)
  }

  /** The error loadGnarkLib throws when koffi.load threw an error with `message`. */
  function ClassifyLoadError(platform: string, arch: string, message: string): Error
  {
    if Text.Contains(message, "not a mach-o") then Error(NotCompatibleMessage(platform, arch))
    else if Text.Contains(Text.ToLower(message), "no such file") then Error(NotBuiltMessage(platform, arch))
    else Error(message)
  }

  lemma ContainsToLower(s: string, sub: string)
    requires Text.Contains(s, sub)
    ensures Text.Contains(Text.ToLower(s), Text.ToLower(sub))
  {
    var i: nat :| i <= |s| && Text.OccursAt(s, sub, i);
    var l := Text.ToLower(s);
    assert l[i..i + |sub|] == Text.ToLower(sub) by {
      forall k | 0 <= k < |sub| ensures l[i..i + |sub|][k] == Text.ToLower(sub)[k] {
        assert s[i..i + |sub|][k] == sub[k];
      }
    }
    assert Text.OccursAt(l, Text.ToLower(sub), i);
  }

  /**
   * The three outcomes: a "not a mach-o" message means an incompatible binary,
   * whatever else it says; otherwise "no such file" in any letter case means a
   * missing build; any other error is rethrown as it is. Both new messages name
   * the platform and architecture and differ from each other.
   */
  lemma ClassifyLoadErrorCases(platform: string, arch: string, message: string)
    ensures Text.Contains(message, "not a mach-o") ==>
      ClassifyLoadError(platform, arch, message).message == NotCompatibleMessage(platform, arch)
    ensures !Text.Contains(message, "not a mach-o") && Text.Contains(message, "No such file") ==>
      ClassifyLoadError(platform, arch, message).message == NotBuiltMessage(platform, arch)
    ensures !Text.Contains(message, "not a mach-o") && !Text.Contains(Text.ToLower(message), "no such file") ==>
      ClassifyLoadError(platform, arch, message) == Error(message)
    ensures ClassifyLoadError(platform, arch, message).message != message ==>
      Text.Contains(ClassifyLoadError(platform, arch, message).message, HostSuffix(platform, arch))
    ensures NotCompatibleMessage(platform, arch) != NotBuiltMessage(platform, arch)
  {
    if Text.Contains(message, "No such file") {
      UpperNoSuchFile(message);
    }
    NewMessagesNameHost(platform, arch);
  }

  /** A message with "No such file" also matches the lower-cased test. */
  lemma UpperNoSuchFile(message: string)
    requires Text.Contains(message, "No such file")
    ensures Text.Contains(Text.ToLower(message), "no such file")
  {
    ContainsToLower(message, "No such file");
    LowerNoSuchFile();
  }

  lemma LowerNoSuchFile()
    ensures Text.ToLower("No such file") == "no such file"
  {
    var l := Text.ToLower("No such file");
    assert l[0] == 'n';
  }

  /** Both new messages end with the host suffix, and they differ from each other. */
  lemma NewMessagesNameHost(platform: string, arch: string)
    ensures Text.Contains(NotCompatibleMessage(platform, arch), HostSuffix(platform, arch))
    ensures Text.Contains(NotBuiltMessage(platform, arch), HostSuffix(platform, arch))
    ensures NotCompatibleMessage(platform, arch) != NotBuiltMessage(platform, arch)
  {
    Text.ContainsConcat("Gnark library not compatible with OS/arch ", HostSuffix(platform, arch), "");
    assert NotCompatibleMessage(platform, arch) ==
      "Gnark library not compatible with OS/arch " + HostSuffix(platform, arch) + "";
    Text.ContainsConcat("Gnark library not built for OS/arch ", HostSuffix(platform, arch), "");
    assert NotBuiltMessage(platform, arch) ==
      "Gnark library not built for OS/arch " + HostSuffix(platform, arch) + "";
    assert NotCompatibleMessage(platform, arch)[18] != NotBuiltMessage(platform, arch)[18];
  }

  /** The object loadGnarkLib resolves to: which library each function was bound from. */
  datatype GnarkLib = GnarkLib(verifyLibrary: string, proveLibrary: string)

  /** The calls loadGnarkLib makes once koffi is imported: reset, load libverify, then (if that worked) libprove. */
  predicate LoadSequence(platform: string, arch: string, calls: seq<NativeCall>)
  {
    |calls| >= 2 && calls[0] == NativeCall.Reset &&
    calls[1].Load? && calls[1].path == LibPath(platform, arch, VerifyLib) &&
    if calls[1].failure.Some? then |calls| == 2
    else |calls| == 3 && calls[2].Load? && calls[2].path == LibPath(platform, arch, ProveLib)
  }

  /** What loadGnarkLib resolves or rejects with after the calls of a load sequence. */
  function LoadOutcome(platform: string, arch: string, calls: seq<NativeCall>): Result<GnarkLib, Error>
    requires LoadSequence(platform, arch, calls)
  {
    if calls[1].failure.Some? then Err(ClassifyLoadError(platform, arch, calls[1].failure.value))
    else if calls[2].failure.Some? then Err(ClassifyLoadError(platform, arch, calls[2].failure.value))
    else Ok(GnarkLib(LibPath(platform, arch, VerifyLib), LibPath(platform, arch, ProveLib)))
  }

  /**
   * Loading succeeds exactly when both libraries loaded, and then the verify
   * function comes from libverify and the others from libprove; a failure is
   * the classified error of the first library that failed.
   */
  lemma LoadOutcomeCases(platform: string, arch: string, calls: seq<NativeCall>)
    requires LoadSequence(platform, arch, calls)
    ensures LoadOutcome(platform, arch, calls).Ok? <==>
      forall k :: 1 <= k < |calls| ==> calls[k].failure.None?
    ensures LoadOutcome(platform, arch, calls).Ok? ==>
      LoadOutcome(platform, arch, calls).value.verifyLibrary != LoadOutcome(platform, arch, calls).value.proveLibrary
    ensures LoadOutcome(platform, arch, calls).Err? ==>
      var k := |calls| - 1;
      calls[k].failure.Some? &&
      LoadOutcome(platform, arch, calls).error == ClassifyLoadError(platform, arch, calls[k].failure.value)
  {
    LibPathsDistinct(platform, arch);
  }

  /**
   * The calls `calls` that loadGnarkLib made, and what it returned: nothing is
   * called when koffi cannot be imported, otherwise a load sequence and its outcome.
   */
  predicate LoadedBy(native: Native, calls: seq<NativeCall>, r: Result<GnarkLib, Error>)
  {
    if !native.koffiAvailable then calls == [] && r == Err(Error(KoffiMissingMessage))
    else
      LoadSequence(native.platform, GoArch(native.arch), calls) &&
      r == LoadOutcome(native.platform, GoArch(native.arch), calls)
  }

  /** A load sequence only resets and loads: it never proves, decodes or frees. */
  lemma LoadSequenceSetup(platform: string, arch: string, calls: seq<NativeCall>)
    requires LoadSequence(platform, arch, calls)
    ensures SetupCalls(calls)
  {
  }

  /** loadGnarkLib(). */
  method LoadGnarkLib(native: Native) returns (r: Result<GnarkLib, Error>)
    modifies native
    ensures |native.calls| >= |old(native.calls)| && native.calls[..|old(native.calls)|] == old(native.calls)
    ensures LoadedBy(native, native.calls[|old(native.calls)|..], r)
    ensures SetupCalls(native.calls[|old(native.calls)|..])
  {
    if !native.koffiAvailable {
      r := Err(Error(KoffiMissingMessage));
    } else {
      ghost var n := |native.calls|;
      native.Reset();
      var arch := GoArch(native.arch);
      var platform := native.platform;
      var verifyPath := LibPath(platform, arch, VerifyLib);
      var provePath := LibPath(platform, arch, ProveLib);
      var failure := native.Load(verifyPath);
      if failure.Some? {
        assert native.calls[n..] == [NativeCall.Reset, NativeCall.Load(verifyPath, failure)];
        r := Err(ClassifyLoadError(platform, arch, failure.value));
      } else {
        var proveFailure := native.Load(provePath);
        assert native.calls[n..] == [NativeCall.Reset, NativeCall.Load(verifyPath, None), NativeCall.Load(provePath, proveFailure)];
        if proveFailure.Some? {
          r := Err(ClassifyLoadError(platform, arch, proveFailure.value));
        } else {
          r := Ok(GnarkLib(verifyPath, provePath));
        }
      }
      LoadSequenceSetup(platform, arch, native.calls[n..]);
    }
  }

  // ---------------------------------------------------------------------------
  // The witness
  // ---------------------------------------------------------------------------

  /** strToUint8Array: TextEncoder's UTF-8 encoding. */
  function StrToUint8Array(s: string): seq<Byte>
  {
    Text.Utf8Encode(s)
  }

  const OutOfBoundsMessage: string := "Offset is outside the bounds of the DataView"

  /** `new DataView(bytes.buffer).getUint32(0, littleEndian)`; a RangeError when fewer than 4 bytes. */
  function GetUint32(bytes: seq<Byte>, littleEndian: bool): Result<Word, Error>
  {
    if |bytes| < 4 then Err(Error(OutOfBoundsMessage))
    else if littleEndian then Ok(WordLE(bytes[0], bytes[1], bytes[2], bytes[3]))
    else Ok(WordLE(bytes[3], bytes[2], bytes[1], bytes[0]))
  }

  /** deSerialiseCounter: the counter bits back to bytes, read as an unsigned 32-bit number. */
  function DeSerialiseCounter(alg: Algorithm, bits: seq<Bit>): Result<Word, Error>
  {
    var bytes :- BitsToUint8Array(alg, bits);
    GetUint32(bytes, CONFIG(alg).isLittleEndian)
  }

  /** The four bytes of a counter in the cipher's byte order. */
  function CounterBytes(alg: Algorithm, counter: Word): seq<Byte>
  {
    var le := WordBytesLE(counter);
    if CONFIG(alg).isLittleEndian then le else [le[3], le[2], le[1], le[0]]
  }

  lemma BytesLength(alg: Algorithm, bits: seq<Bit>)
    requires BitsToUint8Array(alg, bits).Ok?
    ensures 8 * |BitsToUint8Array(alg, bits).value| == |bits|
  {
    CodecRoundTripBits(alg, bits);
    BitsLength(alg, BitsToUint8Array(alg, bits).value);
  }

  /** Expanding a counter's bytes with the cipher's codec and deserialising it gives the counter. */
  lemma CounterRoundTrip(alg: Algorithm, counter: Word)
    ensures DeSerialiseCounter(alg, Uint8ArrayToBits(alg, CounterBytes(alg, counter))) == Ok(counter)
  {
    var bytes := CounterBytes(alg, counter);
    CodecRoundTrip(alg, bytes);
    WordLEOfWordBytes(counter);
  }

  /**
   * deSerialiseCounter fails exactly when the bits are no whole number of codec
   * words or fewer than 32; on its own 32 bits the counter it reads re-expands to them.
   */
  lemma DeSerialiseCounterCases(alg: Algorithm, bits: seq<Bit>)
    ensures DeSerialiseCounter(alg, bits).Ok? <==> |bits| % CONFIG(alg).bitsPerWord == 0 && |bits| >= 32
    ensures |bits| == 32 ==>
      DeSerialiseCounter(alg, bits).Ok? &&
      Uint8ArrayToBits(alg, CounterBytes(alg, DeSerialiseCounter(alg, bits).value)) == bits
  {
    CodecRoundTripBits(alg, bits);
    if BitsToUint8Array(alg, bits).Ok? {
      BytesLength(alg, bits);
      var bytes := BitsToUint8Array(alg, bits).value;
      if |bits| == 32 {
        assert |bytes| == 4;
        var le := CONFIG(alg).isLittleEndian;
        if le {
          WordBytesOfWordLE(bytes[0], bytes[1], bytes[2], bytes[3]);
        } else {
          WordBytesOfWordLE(bytes[3], bytes[2], bytes[1], bytes[0]);
        }
        assert CounterBytes(alg, DeSerialiseCounter(alg, bits).value) == bytes;
      }
    }
  }

  lemma NameIsAscii(alg: Algorithm)
    ensures Text.IsAscii(Name(alg))
  {
    match alg
    case ChaCha20 =>
    case Aes256Ctr =>
    case Aes128Ctr =>
  }

  /** Base64 of the bytes a row-of-bits field converts back to. */
  function EncodeField(alg: Algorithm, rows: seq<seq<Bit>>): Result<string, Error>
  {
    var bytes :- BitsToUint8Array(alg, Flatten(rows));
    Ok(Base64.Encode(bytes))
  }

  /** The proofParams object, member by member in insertion order. */
  function ProofParams(alg: Algorithm, input: ZkInput): Result<seq<(string, Json.Value)>, Error>
  {
    var key :- EncodeField(alg, input.key);
    var nonce :- EncodeField(alg, input.nonce);
    var counter :- DeSerialiseCounter(alg, input.counter);
    var data :- EncodeField(alg, input.data);
    Ok(WitnessMembers(Name(alg), key, nonce, counter, data))
  }

  /** generateGnarkWitness: the UTF-8 bytes of JSON.stringify(proofParams). */
  function GenerateGnarkWitness(alg: Algorithm, input: ZkInput): Result<seq<Byte>, Error>
  {
    var params :- ProofParams(alg, input);
    Ok(StrToUint8Array(Json.Stringify(params)))
  }

  /** A JSON member value that Base64-decodes to bytes expanding to `bits`. */
  predicate CarriesBits(alg: Algorithm, v: Json.Value, bits: seq<Bit>)
  {
    v.JString? && Base64.Decode(v.s).Some? && Uint8ArrayToBits(alg, Base64.Decode(v.s).value) == bits
  }

  lemma EncodeFieldCases(alg: Algorithm, rows: seq<seq<Bit>>)
    ensures EncodeField(alg, rows).Ok? <==> |Flatten(rows)| % CONFIG(alg).bitsPerWord == 0
    ensures EncodeField(alg, rows).Ok? ==> CarriesBits(alg, Json.JString(EncodeField(alg, rows).value), Flatten(rows))
  {
    CodecRoundTripBits(alg, Flatten(rows));
    if EncodeField(alg, rows).Ok? {
      Base64.RoundTrip(BitsToUint8Array(alg, Flatten(rows)).value);
    }
  }

  /**
   * The witness object has exactly the members cipher, key, nonce, counter and
   * input, in this order; key, nonce and input decode back to the flattened
   * bits, and counter is the deserialised counter. It is built exactly when
   * every field converts back to whole codec words and the counter has 32 bits or more.
   */
  lemma ProofParamsContents(alg: Algorithm, input: ZkInput)
    ensures ProofParams(alg, input).Ok? <==>
      |Flatten(input.key)| % CONFIG(alg).bitsPerWord == 0 &&
      |Flatten(input.nonce)| % CONFIG(alg).bitsPerWord == 0 &&
      DeSerialiseCounter(alg, input.counter).Ok? &&
      |Flatten(input.data)| % CONFIG(alg).bitsPerWord == 0
    ensures ProofParams(alg, input).Ok? ==>
      var m := ProofParams(alg, input).value;
      |m| == 5 &&
      [m[0].0, m[1].0, m[2].0, m[3].0, m[4].0] == ["cipher", "key", "nonce", "counter", "input"] &&
      m[0].1 == Json.JString(Name(alg)) &&
      CarriesBits(alg, m[1].1, Flatten(input.key)) &&
      CarriesBits(alg, m[2].1, Flatten(input.nonce)) &&
      m[3].1 == Json.JNat(DeSerialiseCounter(alg, input.counter).value) &&
      CarriesBits(alg, m[4].1, Flatten(input.data))
  {
    EncodeFieldCases(alg, input.key);
    EncodeFieldCases(alg, input.nonce);
    EncodeFieldCases(alg, input.data);
  }

  /** The bytes of an ASCII string, one per character. */
  function AsciiBytes(s: string): seq<int>
  {
    seq(|s|, i requires 0 <= i < |s| => s[i] as int)
  }

  /**
   * The witness JSON is ASCII text, so the witness holds one byte per
   * character of it: its byte length equals the text's JavaScript length.
   */
  lemma WitnessIsAscii(alg: Algorithm, input: ZkInput)
    ensures GenerateGnarkWitness(alg, input).Ok? ==>
      var text := Json.Stringify(ProofParams(alg, input).value);
      Text.IsAscii(text) &&
      GenerateGnarkWitness(alg, input).value == AsciiBytes(text) &&
      |GenerateGnarkWitness(alg, input).value| == Text.Utf16Length(text)
  {
    if GenerateGnarkWitness(alg, input).Ok? {
      var m := ProofParams(alg, input).value;
      ParamsAreAscii(alg, input);
      var text := Json.Stringify(m);
      Json.StringifyAscii(m);
      Text.AsciiUtf8(text);
      Text.Utf8LengthVsUtf16(text);
      assert GenerateGnarkWitness(alg, input).value == Text.Utf8Encode(text);
    }
  }

  lemma ParamsAreAscii(alg: Algorithm, input: ZkInput)
    requires ProofParams(alg, input).Ok?
    ensures Json.AsciiMembers(ProofParams(alg, input).value)
  {
    var key, nonce, data := EncodeField(alg, input.key), EncodeField(alg, input.nonce), EncodeField(alg, input.data);
    var counter := DeSerialiseCounter(alg, input.counter);
    assert key.Ok? && nonce.Ok? && counter.Ok? && data.Ok?;
    assert ProofParams(alg, input).value == WitnessMembers(Name(alg), key.value, nonce.value, counter.value, data.value);
    FieldIsAscii(alg, input.key);
    FieldIsAscii(alg, input.nonce);
    FieldIsAscii(alg, input.data);
    NameIsAscii(alg);
    MembersAreAscii(Name(alg), key.value, nonce.value, counter.value, data.value);
  }

  function WitnessMembers(cipher: string, key: string, nonce: string, counter: nat, data: string): seq<(string, Json.Value)>
  {
    [("cipher", Json.JString(cipher)), ("key", Json.JString(key)), ("nonce", Json.JString(nonce)),
     ("counter", Json.JNat(counter)), ("input", Json.JString(data))]
  }

  lemma MembersAreAscii(cipher: string, key: string, nonce: string, counter: nat, data: string)
    requires Text.IsAscii(cipher) && Text.IsAscii(key) && Text.IsAscii(nonce) && Text.IsAscii(data)
    ensures Json.AsciiMembers(WitnessMembers(cipher, key, nonce, counter, data))
  {
    assert Text.IsAscii("cipher") && Text.IsAscii("key") && Text.IsAscii("nonce");
    assert Text.IsAscii("counter") && Text.IsAscii("input");
  }

  lemma FieldIsAscii(alg: Algorithm, rows: seq<seq<Bit>>)
    ensures EncodeField(alg, rows).Ok? ==> Text.IsAscii(EncodeField(alg, rows).value)
  {
    if EncodeField(alg, rows).Ok? {
      Base64.EncodeIsPlain(BitsToUint8Array(alg, Flatten(rows)).value);
    }
  }
}
