/**
 * js/src/gnark/operator.ts: the native-backend operator. The loaded library
 * is memoised once per process (the module-level `globalGnarkLib`); each
 * operator initialises its algorithm in the library once (`initDone`);
 * proving copies the Go-owned result out and frees it.
 */
module GnarkOperator {
  import opened Wrappers
  import opened BitCodec
  import opened Config
  import Text
  import Base64
  import Json
  import opened ZkTypes
  import opened Host
  import opened GnarkUtils
  import opened NativeTrace
  import opened GnarkProtocol

  // ---------------------------------------------------------------------------
  // The verification payload
  // ---------------------------------------------------------------------------

  /** The verifyParams object, member by member. */
  function VerifyMembers(cipher: string, proof: string, publicSignals: string): seq<(string, Json.Value)>
  {
    [("cipher", Json.JString(cipher)), ("proof", Json.JString(proof)), ("publicSignals", Json.JString(publicSignals))]
  }

  /** The JSON text handed to the native `Verify`. */
  function VerifyJson(alg: Algorithm, publicSignals: seq<seq<Bit>>, proofJson: string): Result<string, Error>
  {
    var signals :- BitsToUint8Array(alg, Flatten(publicSignals));
    Ok(Json.Stringify(VerifyMembers(Name(alg), proofJson, Base64.Encode(signals))))
  }

  /** The slice passed to `Verify`: the UTF-8 bytes, with `len = cap =` the JavaScript length of the text. */
  function VerifySlice(alg: Algorithm, publicSignals: seq<seq<Bit>>, proofJson: string): Result<GoSlice, Error>
  {
    var json :- VerifyJson(alg, publicSignals, proofJson);
    Ok(TextSlice(json))
  }

  /**
   * The payload names the cipher, carries the proof text, and Base64-encodes
   * bytes that expand back to the flattened public signals; it is built
   * exactly when the signals are a whole number of codec words.
   */
  lemma VerifyJsonContents(alg: Algorithm, publicSignals: seq<seq<Bit>>, proofJson: string)
    ensures VerifyJson(alg, publicSignals, proofJson).Ok? <==>
      |Flatten(publicSignals)| % CONFIG(alg).bitsPerWord == 0
    ensures VerifyJson(alg, publicSignals, proofJson).Ok? ==>
      var bytes := BitsToUint8Array(alg, Flatten(publicSignals)).value;
      var m := VerifyMembers(Name(alg), proofJson, Base64.Encode(bytes));
      VerifyJson(alg, publicSignals, proofJson).value == Json.Stringify(m) &&
      [m[0].0, m[1].0, m[2].0] == ["cipher", "proof", "publicSignals"] &&
      CarriesBits(alg, m[2].1, Flatten(publicSignals))
  {
    CodecRoundTripBits(alg, Flatten(publicSignals));
    if BitsToUint8Array(alg, Flatten(publicSignals)).Ok? {
      Base64.RoundTrip(BitsToUint8Array(alg, Flatten(publicSignals)).value);
    }
  }

  /**
   * The slice's `len` is the text's UTF-16 length, which is the number of
   * bytes actually in the buffer exactly when the proof text is ASCII; for any
   * other proof text the native side is told fewer bytes than were encoded.
   */
  lemma VerifySliceLength(alg: Algorithm, publicSignals: seq<seq<Bit>>, proofJson: string)
    requires VerifySlice(alg, publicSignals, proofJson).Ok?
    ensures var s := VerifySlice(alg, publicSignals, proofJson).value;
      s.len == s.cap && s.len <= |s.data| &&
      (s.len == |s.data| <==> Text.IsAscii(proofJson))
  {
    var bytes := BitsToUint8Array(alg, Flatten(publicSignals));
    assert bytes.Ok?;
    var signals := Base64.Encode(bytes.value);
    var json := Json.Stringify(VerifyMembers(Name(alg), proofJson, signals));
    assert VerifySlice(alg, publicSignals, proofJson).value == TextSlice(json);
    assert Text.IsAscii(signals) by {
      Base64.EncodeIsPlain(bytes.value);
    }
    NameIsAscii(alg);
    VerifyTextAscii(Name(alg), proofJson, signals);
    TextSliceLength(json);
  }

  /** A slice over the UTF-8 bytes of a text whose `len` and `cap` are the text's JavaScript length. */
  function TextSlice(text: string): GoSlice
  {
    GoSlice(StrToUint8Array(text), Text.Utf16Length(text), Text.Utf16Length(text))
  }

  lemma TextSliceLength(text: string)
    ensures TextSlice(text).len == TextSlice(text).cap <= |TextSlice(text).data|
    ensures TextSlice(text).len == |TextSlice(text).data| <==> Text.IsAscii(text)
  {
    Text.Utf8LengthVsUtf16(text);
  }

  lemma VerifyTextAscii(cipher: string, proof: string, signals: string)
    requires Text.IsAscii(cipher) && Text.IsAscii(signals)
    ensures Text.IsAscii(Json.Stringify(VerifyMembers(cipher, proof, signals))) <==> Text.IsAscii(proof)
  {
    var m := VerifyMembers(cipher, proof, signals);
    assert Text.IsAscii("cipher") && Text.IsAscii("proof") && Text.IsAscii("publicSignals");
    assert forall i :: 0 <= i < |m| && i != 1 ==> Text.IsAscii(m[i].0) && Json.ValueIsAscii(m[i].1);
    Json.StringifyAsciiIff(m, 1);
  }

  // ---------------------------------------------------------------------------
  // Process-wide and per-operator state
  // ---------------------------------------------------------------------------

  /** The module-level `globalGnarkLib`: the memoised result of loadGnarkLib, shared by all operators. */
  class GnarkModule {
    var globalGnarkLib: Option<Result<GnarkLib, Error>>
    /** How many times loadGnarkLib has run in this process. */
    ghost var loads: nat

    ghost predicate Valid()
      reads this
    {
      loads == if globalGnarkLib.Some? then 1 else 0
    }

    constructor()
      ensures Valid() && globalGnarkLib == None
    {
      globalGnarkLib := None;
      loads := 0;
    }

    /**
     * `globalGnarkLib ||= loadGnarkLib(); await globalGnarkLib`: the first call
     * loads, every later call gets the same result, a failure included.
     */
    method Lib(native: Native) returns (lib: Result<GnarkLib, Error>, ghost loadCalls: seq<NativeCall>)
      requires Valid()
      modifies this, native
      ensures Valid() && globalGnarkLib == Some(lib)
      ensures native.calls == old(native.calls) + loadCalls
      ensures old(globalGnarkLib).Some? ==> lib == old(globalGnarkLib).value && loadCalls == []
      ensures old(globalGnarkLib).None? ==> LoadedBy(native, loadCalls, lib)
      ensures SetupCalls(loadCalls)
    {
      if globalGnarkLib.Some? {
        return globalGnarkLib.value, [];
      }
      ghost var n := |native.calls|;
      lib := LoadGnarkLib(native);
      loadCalls := native.calls[n..];
      assert native.calls == native.calls[..n] + native.calls[n..];
      globalGnarkLib := Some(lib);
      loads := loads + 1;
    }
  }

  /** The operator makeGnarkZkOperator returns. */
  class GnarkZkOperator {
    const algorithm: Algorithm
    const fetcher: Fetcher
    const native: Native
    const shared: GnarkModule
    const parser: ProofParser
    var initDone: bool
    /** How many InitAlgorithm calls this operator has made. */
    ghost var inits: nat

    ghost predicate Valid()
      reads this, shared, native
    {
      shared.Valid() &&
      inits == (if initDone then 1 else 0) &&
      (initDone ==> shared.globalGnarkLib.Some? && shared.globalGnarkLib.value.Ok?) &&
      Balanced(native.calls)
    }

    /** makeGnarkZkOperator({ algorithm, fetcher }). */
    constructor(algorithm: Algorithm, fetcher: Fetcher, native: Native, shared: GnarkModule, parser: ProofParser)
      requires shared.Valid() && Balanced(native.calls)
      ensures Valid()
      ensures this.algorithm == algorithm && this.fetcher == fetcher && this.native == native && this.shared == shared
      ensures this.parser == parser
      ensures !initDone
    {
      this.algorithm := algorithm;
      this.fetcher := fetcher;
      this.native := native;
      this.shared := shared;
      this.parser := parser;
      initDone := false;
      inits := 0;
    }

    /** generateWitness: the witness JSON; the library is neither loaded nor initialised. */
    method GenerateWitness(input: ZkInput) returns (r: Result<seq<Byte>, Error>)
      ensures r == GenerateGnarkWitness(algorithm, input)
    {
      r := GenerateGnarkWitness(algorithm, input);
    }

    /**
     * initGnark: get the shared library; unless this operator already did so,
     * fetch both 'gnark' artifacts and call InitAlgorithm with the cipher's id,
     * and only then mark the operator initialised.
     */
    method InitGnark() returns (r: Result<GnarkLib, Error>, ghost loadCalls: seq<NativeCall>, ghost initCalls: seq<NativeCall>)
      requires Valid()
      modifies this, shared, native, fetcher
      ensures Valid()
      ensures native.calls == old(native.calls) + initCalls && SetupCalls(initCalls)
      ensures shared.globalGnarkLib.Some?
      ensures old(shared.globalGnarkLib).Some? ==> shared.globalGnarkLib == old(shared.globalGnarkLib) && loadCalls == []
      ensures old(shared.globalGnarkLib).None? ==> LoadedBy(native, loadCalls, shared.globalGnarkLib.value)
      ensures SetupCalls(loadCalls)
      ensures InitOutcome(algorithm, shared.globalGnarkLib.value, old(initDone), old(fetcher.requests), fetcher.requests,
                          old(native.calls) + loadCalls, native.calls, r, initDone)
    {
      var lib;
      lib, loadCalls := shared.Lib(native);
      initCalls := loadCalls;
      SetupBalanced(loadCalls);
      BalancedConcat(old(native.calls), loadCalls);
      if lib.Err? || initDone {
        return lib, loadCalls, initCalls;
      }
      ghost var initCall;
      r, initCall := InitAlgorithmOnce(lib.value);
      initCalls := loadCalls + initCall;
      assert native.calls == old(native.calls) + initCalls;
      SetupConcat(loadCalls, initCall);
    }

    /**
     * The part of initGnark after the library is loaded, on an operator not yet
     * initialised: fetch pk and r1cs, and call InitAlgorithm once both arrived.
     */
    method InitAlgorithmOnce(lib: GnarkLib) returns (r: Result<GnarkLib, Error>, ghost initCall: seq<NativeCall>)
      requires Valid() && !initDone && shared.globalGnarkLib == Some(Ok(lib))
      modifies this, native, fetcher
      ensures Valid()
      ensures native.calls == old(native.calls) + initCall && SetupCalls(initCall)
      ensures FirstInit(algorithm, lib, old(fetcher.requests), fetcher.requests, old(native.calls), native.calls, r, initDone)
    {
      var pk := fetcher.Fetch(Gnark, PkName(algorithm));
      var r1cs := fetcher.Fetch(Gnark, R1csName(algorithm));
      if pk.Err? {
        return Err(pk.error), [];
      }
      if r1cs.Err? {
        return Err(r1cs.error), [];
      }
      ghost var before := native.calls;
      var status := native.InitAlgorithm(CONFIG(algorithm).index, SliceOf(pk.value), SliceOf(r1cs.value));
      initCall := [NativeCall.InitAlgorithm(CONFIG(algorithm).index, SliceOf(pk.value), SliceOf(r1cs.value), status)];
      BalancedSetupSnoc(before, initCall[0]);
      initDone := true;
      inits := inits + 1;
      r := Ok(lib);
    }

    /**
     * groth16Prove: after initialisation, prove over a slice of the witness,
     * copy `r1` bytes out of the Go buffer `r0`, free `r0`, then parse the copy.
     */
    method Groth16Prove(wtns: seq<Byte>)
      returns (r: Result<GnarkProof, Error>, ghost init: Result<GnarkLib, Error>, ghost loadCalls: seq<NativeCall>, ghost initCalls: seq<NativeCall>)
      requires Valid()
      modifies this, shared, native, fetcher, parser
      ensures Valid()
      ensures |native.calls| >= |old(native.calls)| + |initCalls|
      ensures native.calls[..|old(native.calls)| + |initCalls|] == old(native.calls) + initCalls
      ensures SetupCalls(initCalls)
      ensures shared.globalGnarkLib.Some?
      ensures old(shared.globalGnarkLib).Some? ==> shared.globalGnarkLib == old(shared.globalGnarkLib) && loadCalls == []
      ensures old(shared.globalGnarkLib).None? ==> LoadedBy(native, loadCalls, shared.globalGnarkLib.value)
      ensures InitOutcome(algorithm, shared.globalGnarkLib.value, old(initDone), old(fetcher.requests), fetcher.requests,
                          old(native.calls) + loadCalls, native.calls[..|old(native.calls)| + |initCalls|], init, initDone)
      ensures initDone == (old(initDone) || init.Ok?)
      ensures old(initDone) ==>
        initCalls == [] && fetcher.requests == old(fetcher.requests) &&
        shared.globalGnarkLib == old(shared.globalGnarkLib)
      ensures init.Err? ==> r == Err(init.error) && native.calls == old(native.calls) + initCalls
      ensures init.Ok? ==> ProveCalls(native.calls, |old(native.calls)| + |initCalls|, SliceOf(wtns))
      ensures init.Err? ==> parser.parses == old(parser.parses)
      ensures init.Ok? ==>
        parser.parses == old(parser.parses) + [ParseRecord(native.calls[|old(native.calls)| + |initCalls| + 1].bytes, r)]
    {
      var lib;
      lib, loadCalls, initCalls := InitGnark();
      init := lib;
      if lib.Err? {
        return Err(lib.error), init, loadCalls, initCalls;
      }
      ghost var before := native.calls;
      var ret := native.Prove(SliceOf(wtns));
      var bytes := native.Decode(ret.r0, ret.r1);
      native.Free(ret.r0);
      assert native.calls == before + [NativeCall.Prove(SliceOf(wtns), ret), NativeCall.Decode(ret.r0, ret.r1, bytes), NativeCall.Free(ret.r0)];
      BalancedProveSnoc(before, SliceOf(wtns), ret, bytes);
      r := parser.ParseProof(bytes);
    }

    /**
     * groth16Verify: after initialisation, the JSON of { cipher, proof,
     * publicSignals } goes to the native Verify, and the proof is valid exactly
     * when the returned byte is 1.
     */
    method Groth16Verify(publicSignals: seq<seq<Bit>>, proof: GnarkProof)
      returns (r: Result<bool, Error>, ghost init: Result<GnarkLib, Error>, ghost loadCalls: seq<NativeCall>, ghost initCalls: seq<NativeCall>)
      requires Valid()
      modifies this, shared, native, fetcher
      ensures Valid()
      ensures |native.calls| >= |old(native.calls)| + |initCalls|
      ensures native.calls[..|old(native.calls)| + |initCalls|] == old(native.calls) + initCalls
      ensures SetupCalls(initCalls)
      ensures shared.globalGnarkLib.Some?
      ensures old(shared.globalGnarkLib).Some? ==> shared.globalGnarkLib == old(shared.globalGnarkLib) && loadCalls == []
      ensures old(shared.globalGnarkLib).None? ==> LoadedBy(native, loadCalls, shared.globalGnarkLib.value)
      ensures InitOutcome(algorithm, shared.globalGnarkLib.value, old(initDone), old(fetcher.requests), fetcher.requests,
                          old(native.calls) + loadCalls, native.calls[..|old(native.calls)| + |initCalls|], init, initDone)
      ensures initDone == (old(initDone) || init.Ok?)
      ensures old(initDone) ==>
        initCalls == [] && fetcher.requests == old(fetcher.requests) &&
        shared.globalGnarkLib == old(shared.globalGnarkLib)
      ensures init.Err? ==> r == Err(init.error) && native.calls == old(native.calls) + initCalls
      ensures init.Ok? && VerifySlice(algorithm, publicSignals, proof.proofJson).Err? ==>
        r == Err(VerifySlice(algorithm, publicSignals, proof.proofJson).error) &&
        native.calls == old(native.calls) + initCalls
      ensures init.Ok? && VerifySlice(algorithm, publicSignals, proof.proofJson).Ok? ==>
        VerifyCall(native.calls, |old(native.calls)| + |initCalls|, VerifySlice(algorithm, publicSignals, proof.proofJson).value, r)
    {
      var lib;
      lib, loadCalls, initCalls := InitGnark();
      init := lib;
      if lib.Err? {
        r := Err(lib.error);
      } else {
        var slice := VerifySlice(algorithm, publicSignals, proof.proofJson);
        if slice.Err? {
          r := Err(slice.error);
        } else {
          ghost var before := native.calls;
          var ret := native.Verify(slice.value);
          BalancedSetupSnoc(before, NativeCall.Verify(slice.value, ret));
          r := Ok(ret == 1);
        }
      }
    }
  }
}
