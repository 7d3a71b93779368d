/**
 * The foreign world the operators call into, as uninterpreted operations:
 * the artifact fetcher, the koffi-loaded Go libraries, snarkjs, JSON.parse
 * and the WebAssembly.Memory global. Every result is arbitrary; every call
 * is appended, with its arguments and its result, to a ghost trace, so the
 * operators' contracts can say which calls they make, in which order and
 * how often.
 */
module Host {
  import opened Wrappers
  import opened BitCodec
  import opened ZkTypes

  /** The engine argument of `fetcher.fetch`. */
  datatype Engine = Gnark | SnarkJs

  function EngineName(e: Engine): string
  {
    match e
    case Gnark => "gnark"
    case SnarkJs => "snarkjs"
  }

  datatype FetchRecord = FetchRecord(engine: Engine, filename: string, result: Result<seq<Byte>, Error>)

  /** The `fetcher` option: `fetch(engine, filename, logger)`. */
  class Fetcher {
    ghost var requests: seq<FetchRecord>

    constructor()
      ensures requests == []
    {
      requests := [];
    }

    method Fetch(engine: Engine, filename: string) returns (r: Result<seq<Byte>, Error>)
      modifies this
      ensures requests == old(requests) + [FetchRecord(engine, filename, r)]
    {
      r := *;
      requests := requests + [FetchRecord(engine, filename, r)];
    }
  }

  /** The GoSlice struct `{ data: void *, len: longlong, cap: longlong }`. */
  datatype GoSlice = GoSlice(data: seq<Byte>, len: int, cap: int)

  /** A slice over a whole buffer, as every caller builds them. */
  function SliceOf(buffer: seq<Byte>): GoSlice
  {
    GoSlice(buffer, |buffer|, |buffer|)
  }

  /** The ProveReturn struct `{ r0: void *, r1: longlong }`: a Go-owned buffer and its length. */
  datatype ProveReturn = ProveReturn(r0: nat, r1: int)

  datatype NativeCall =
    | Reset
    | Load(path: string, failure: Option<string>)
    | InitAlgorithm(id: nat, pk: GoSlice, r1cs: GoSlice, status: Byte)
    | Prove(params: GoSlice, result: ProveReturn)
    | Decode(ptr: nat, len: int, bytes: seq<Byte>)
    | Free(ptr: nat)
    | Verify(params: GoSlice, ret: Byte)

  /**
   * koffi and the functions of the two Go shared libraries, with the host's
   * `process.platform` and `process.arch`.
   */
  class Native {
    const koffiAvailable: bool
    const platform: string
    const arch: string
    ghost var calls: seq<NativeCall>

    constructor(koffiAvailable: bool, platform: string, arch: string)
      ensures this.koffiAvailable == koffiAvailable && this.platform == platform && this.arch == arch
      ensures calls == []
    {
      this.koffiAvailable := koffiAvailable;
      this.platform := platform;
      this.arch := arch;
      calls := [];
    }

    /** `koffi.reset()`. */
    method Reset()
      modifies this
      ensures calls == old(calls) + [NativeCall.Reset]
    {
      calls := calls + [NativeCall.Reset];
    }

    /** `koffi.load(path)`; a failure carries the thrown error's message. */
    method Load(path: string) returns (failure: Option<string>)
      modifies this
      ensures calls == old(calls) + [NativeCall.Load(path, failure)]
    {
      failure := *;
      calls := calls + [NativeCall.Load(path, failure)];
    }

    method InitAlgorithm(id: nat, pk: GoSlice, r1cs: GoSlice) returns (status: Byte)
      modifies this
      ensures calls == old(calls) + [NativeCall.InitAlgorithm(id, pk, r1cs, status)]
    {
      status := *;
      calls := calls + [NativeCall.InitAlgorithm(id, pk, r1cs, status)];
    }

    method Prove(params: GoSlice) returns (ret: ProveReturn)
      modifies this
      ensures calls == old(calls) + [NativeCall.Prove(params, ret)]
    {
      ret := *;
      calls := calls + [NativeCall.Prove(params, ret)];
    }

    /** `koffi.decode(ptr, 'unsigned char', len)`: a copy of `len` bytes at `ptr`. */
    method Decode(ptr: nat, len: int) returns (bytes: seq<Byte>)
      modifies this
      ensures len >= 0 ==> |bytes| == len
      ensures calls == old(calls) + [NativeCall.Decode(ptr, len, bytes)]
    {
      var raw: seq<Byte> := *;
      bytes := if len >= 0 then (raw + seq(len, _ => 0))[..len] else raw;
      calls := calls + [NativeCall.Decode(ptr, len, bytes)];
    }

    method Free(ptr: nat)
      modifies this
      ensures calls == old(calls) + [NativeCall.Free(ptr)]
    {
      calls := calls + [NativeCall.Free(ptr)];
    }

    method Verify(params: GoSlice) returns (ret: Byte)
      modifies this
      ensures calls == old(calls) + [NativeCall.Verify(params, ret)]
    {
      ret := *;
      calls := calls + [NativeCall.Verify(params, ret)];
    }
  }

  /** What JSON.parse yields for the native prover's output: an object with a string `proofJson`. */
  datatype GnarkProof = GnarkProof(proofJson: string)

  datatype ParseRecord = ParseRecord(bytes: seq<Byte>, result: Result<GnarkProof, Error>)

  /** The JavaScript runtime's `JSON.parse`, applied to the prover's output. */
  class ProofParser {
    ghost var parses: seq<ParseRecord>

    constructor()
      ensures parses == []
    {
      parses := [];
    }

    /** `JSON.parse(Buffer.from(bytes).toString())`; neither the UTF-8 decoding nor the parser is modelled. */
    method ParseProof(bytes: seq<Byte>) returns (r: Result<GnarkProof, Error>)
      modifies this
      ensures parses == old(parses) + [ParseRecord(bytes, r)]
    {
      r := *;
      parses := parses + [ParseRecord(bytes, r)];
    }
  }

  /**
   * A WebAssembly.Memory constructor: the one installed before the operator
   * ran, or a subclass of `base` whose constructor always asks for `pages`
   * initial pages.
   */
  datatype MemoryCtor = Original(id: nat) | FixedInitial(pages: nat, base: MemoryCtor)

  /** The JavaScript global object, reduced to `WebAssembly.Memory`. */
  class Globals {
    var memory: MemoryCtor

    constructor(memory: MemoryCtor)
      ensures this.memory == memory
    {
      this.memory := memory;
    }
  }

  datatype Calculator = Calculator(handle: nat)
  datatype VerificationKey = VerificationKey(handle: nat)
  /** The proof and public signals snarkjs.groth16.prove returns. */
  datatype SnarkProof = SnarkProof(handle: nat)

  datatype SnarkCall =
    | GetWtnsCalculator(wasm: seq<Byte>, memory: MemoryCtor, created: Result<Calculator, Error>)
    | CalculateWithCalculator(input: CircuitInput, calculator: Calculator, wtns: Result<seq<Byte>, Error>)
    | Calculate(input: CircuitInput, wasm: seq<Byte>, wtns: Result<seq<Byte>, Error>)
    | Groth16Prove(zkey: seq<Byte>, proveWitness: seq<Byte>, proof: Result<SnarkProof, Error>)
    | ExportVerificationKey(zkey: seq<Byte>, vk: Result<VerificationKey, Error>)
    | Groth16Verify(vkey: VerificationKey, publicSignals: seq<seq<Bit>>, verifyProof: SnarkProof, valid: Result<bool, Error>)

  /** The `snarkjs` package. */
  class SnarkJs {
    /** Whether `snarkjs.wtns.getWtnsCalculator` exists in this snarkjs build. */
    const hasWtnsCalculator: bool
    ghost var calls: seq<SnarkCall>

    constructor(hasWtnsCalculator: bool)
      ensures this.hasWtnsCalculator == hasWtnsCalculator && calls == []
    {
      this.hasWtnsCalculator := hasWtnsCalculator;
      calls := [];
    }

    /** `snarkjs.wtns.getWtnsCalculator(wasm, logger)`, run while `memory` is the global Memory constructor. */
    method GetWtnsCalculator(wasm: seq<Byte>, memory: MemoryCtor) returns (r: Result<Calculator, Error>)
      requires hasWtnsCalculator
      modifies this
      ensures calls == old(calls) + [SnarkCall.GetWtnsCalculator(wasm, memory, r)]
    {
      r := *;
      calls := calls + [SnarkCall.GetWtnsCalculator(wasm, memory, r)];
    }

    /** `snarkjs.wtns.wtnsCalculateWithCalculator(input, calculator, { type: 'mem' })`. */
    method CalculateWithCalculator(input: CircuitInput, calculator: Calculator) returns (r: Result<seq<Byte>, Error>)
      modifies this
      ensures calls == old(calls) + [SnarkCall.CalculateWithCalculator(input, calculator, r)]
    {
      r := *;
      calls := calls + [SnarkCall.CalculateWithCalculator(input, calculator, r)];
    }

    /** `snarkjs.wtns.calculate(input, wasm, { type: 'mem' })`. */
    method Calculate(input: CircuitInput, wasm: seq<Byte>) returns (r: Result<seq<Byte>, Error>)
      modifies this
      ensures calls == old(calls) + [SnarkCall.Calculate(input, wasm, r)]
    {
      r := *;
      calls := calls + [SnarkCall.Calculate(input, wasm, r)];
    }

    method Groth16Prove(zkey: seq<Byte>, wtns: seq<Byte>) returns (r: Result<SnarkProof, Error>)
      modifies this
      ensures calls == old(calls) + [SnarkCall.Groth16Prove(zkey, wtns, r)]
    {
      r := *;
      calls := calls + [SnarkCall.Groth16Prove(zkey, wtns, r)];
    }

    method ExportVerificationKey(zkey: seq<Byte>) returns (r: Result<VerificationKey, Error>)
      modifies this
      ensures calls == old(calls) + [SnarkCall.ExportVerificationKey(zkey, r)]
    {
      r := *;
      calls := calls + [SnarkCall.ExportVerificationKey(zkey, r)];
    }

    method Groth16Verify(vk: VerificationKey, publicSignals: seq<seq<Bit>>, proof: SnarkProof)
      returns (r: Result<bool, Error>)
      modifies this
      ensures calls == old(calls) + [SnarkCall.Groth16Verify(vk, publicSignals, proof, r)]
    {
      r := *;
      calls := calls + [SnarkCall.Groth16Verify(vk, publicSignals, proof, r)];
    }
  }
}
