/**
 * js/src/snarkjs/operator.ts: the in-process operator. The circuit wasm,
 * the witness calculator and the zkey are memoised promises (a rejected one
 * stays cached) until `release`; the verification key is derived from the
 * zkey once and stored on it; the WebAssembly.Memory global is replaced
 * while the calculator is created and put back afterwards.
 */
module SnarkJsOperator {
  import opened Wrappers
  import opened BitCodec
  import opened Config
  import opened ZkTypes
  import opened Host

  /** WITNESS_MEMORY_SIZE_PAGES */
  const WitnessMemorySizePages: nat := 5

  function WasmName(alg: Algorithm): string
  {
    Name(alg) + "/circuit.wasm"
  }

  function ZkeyName(alg: Algorithm): string
  {
    Name(alg) + "/circuit_final.zkey"
  }

  /** The two snarkjs artifacts of an algorithm are different files, and no two algorithms share one. */
  lemma {:induction false} ArtifactNames(a: Algorithm, b: Algorithm)
    ensures WasmName(a) != ZkeyName(b)
    ensures WasmName(a) == WasmName(b) ==> a == b
    ensures ZkeyName(a) == ZkeyName(b) ==> a == b
  {
    var wa, zb := WasmName(a), ZkeyName(b);
    assert wa[|wa| - 1] == 'm' && zb[|zb| - 1] == 'y';
    assert |Name(ChaCha20)| == 8 && |Name(Aes256Ctr)| == 11 && |Name(Aes128Ctr)| == 11;
    assert Name(Aes256Ctr)[4] == '2' && Name(Aes128Ctr)[4] == '1';
    if WasmName(a) == WasmName(b) {
      assert |Name(a)| == |Name(b)|;
      assert WasmName(a)[..|Name(a)|] == Name(a) && WasmName(b)[..|Name(b)|] == Name(b);
    }
    if ZkeyName(a) == ZkeyName(b) {
      assert |Name(a)| == |Name(b)|;
      assert ZkeyName(a)[..|Name(a)|] == Name(a) && ZkeyName(b)[..|Name(b)|] == Name(b);
    }
  }

  /** The object getZkey resolves to: `{ data }`, later given its `json` verification key. */
  class ZkeyResult {
    const data: seq<Byte>
    var json: Option<VerificationKey>
    /** How many verification keys have been stored on this object. */
    ghost var exports: nat

    ghost predicate Valid()
      reads this
    {
      exports == if json.Some? then 1 else 0
    }

    constructor(data: seq<Byte>)
      ensures this.data == data && json == None && Valid()
    {
      this.data := data;
      json := None;
      exports := 0;
    }
  }

  /** The calculator the `wc` promise resolves to, from the result of getWtnsCalculator. */
  function CalculatorOf(created: Result<Calculator, Error>): Result<Option<Calculator>, Error>
  {
    match created
    case Ok(c) => Ok(Some(c))
    case Err(e) => Err(e)
  }

  /**
   * How `wc` is settled when it was not cached: undefined without
   * getWtnsCalculator; otherwise the rejection of the wasm, or one call of
   * getWtnsCalculator made while the Memory global asks for five pages.
   */
  predicate CalculatorCreated(hasWtnsCalculator: bool, wasm: Result<seq<Byte>, Error>, memory: MemoryCtor,
                              created: seq<SnarkCall>, wc: Result<Option<Calculator>, Error>)
  {
    if !hasWtnsCalculator then created == [] && wc == Ok(None)
    else if wasm.Err? then created == [] && wc == Err(wasm.error)
    else
      |created| == 1 && created[0].GetWtnsCalculator? &&
      created[0].wasm == wasm.value &&
      created[0].memory == FixedInitial(WitnessMemorySizePages, memory) &&
      wc == CalculatorOf(created[0].created)
  }

  /**
   * The witness calculation once `wc` and the wasm are settled: with a
   * calculator, wtnsCalculateWithCalculator; with none, wtns.calculate on the
   * wasm; the input never carries `out`.
   */
  predicate Calculated(input: ZkInput, wasm: Result<seq<Byte>, Error>, wc: Result<Option<Calculator>, Error>,
                       calculated: seq<SnarkCall>, r: Result<seq<Byte>, Error>)
  {
    if wc.Err? then calculated == [] && r == Err(wc.error)
    else if wc.value.Some? then
      calculated == [SnarkCall.CalculateWithCalculator(WithoutOut(input), wc.value.value, r)]
    else if wasm.Err? then calculated == [] && r == Err(wasm.error)
    else calculated == [SnarkCall.Calculate(WithoutOut(input), wasm.value, r)]
  }

  /**
   * How `zkey` is settled when it was not cached: one fetch of
   * "<algorithm>/circuit_final.zkey" from the 'snarkjs' engine was appended to
   * the fetch log `f0`, and the cached result wraps its data or is its failure.
   */
  predicate ZkeyFetched(alg: Algorithm, f0: seq<FetchRecord>, requests: seq<FetchRecord>, z: Result<ZkeyResult, Error>)
  {
    |requests| == |f0| + 1 && requests[..|f0|] == f0 &&
    var f := requests[|f0|];
    f.engine == SnarkJs && f.filename == ZkeyName(alg) &&
    (z.Ok? <==> f.result.Ok?) &&
    (z.Ok? ==> z.value.data == f.result.value) &&
    (z.Err? ==> z.error == f.result.error)
  }

  /** The operator makeSnarkJsZKOperator returns. */
  class SnarkJsZkOperator {
    const algorithm: Algorithm
    const fetcher: Fetcher
    const snarkjs: SnarkJs
    const globals: Globals
    var zkey: Option<Result<ZkeyResult, Error>>
    var circuitWasm: Option<Result<seq<Byte>, Error>>
    var wc: Option<Result<Option<Calculator>, Error>>
    /** Fetches of the wasm, fetches of the zkey and calculator creations since the last release. */
    ghost var wasmFetches: nat
    ghost var zkeyFetches: nat
    ghost var creations: nat

    ghost function ZkeyObject(): set<object>
      reads this
    {
      if zkey.Some? && zkey.value.Ok? then {zkey.value.value} else {}
    }

    ghost predicate Valid()
      reads this, ZkeyObject()
    {
      wasmFetches == (if circuitWasm.Some? then 1 else 0) &&
      zkeyFetches == (if zkey.Some? then 1 else 0) &&
      creations <= (if wc.Some? then 1 else 0) &&
      (zkey.Some? && zkey.value.Ok? ==> zkey.value.value.Valid())
    }

    /** makeSnarkJsZKOperator({ algorithm, fetcher }): every cache starts empty. */
    constructor(algorithm: Algorithm, fetcher: Fetcher, snarkjs: SnarkJs, globals: Globals)
      ensures Valid()
      ensures this.algorithm == algorithm && this.fetcher == fetcher
      ensures this.snarkjs == snarkjs && this.globals == globals
      ensures zkey == None && circuitWasm == None && wc == None
    {
      this.algorithm := algorithm;
      this.fetcher := fetcher;
      this.snarkjs := snarkjs;
      this.globals := globals;
      zkey := None;
      circuitWasm := None;
      wc := None;
      wasmFetches := 0;
      zkeyFetches := 0;
      creations := 0;
    }

    /** `circuitWasm ||= getCircuitWasm(); await circuitWasm`. */
    method CircuitWasm() returns (w: Result<seq<Byte>, Error>)
      requires Valid()
      modifies this, fetcher
      ensures Valid()
      ensures circuitWasm == Some(w) && zkey == old(zkey) && wc == old(wc) && creations == old(creations)
      ensures old(circuitWasm).Some? ==> w == old(circuitWasm).value && fetcher.requests == old(fetcher.requests)
      ensures old(circuitWasm).None? ==>
        fetcher.requests == old(fetcher.requests) + [FetchRecord(SnarkJs, WasmName(algorithm), w)]
    {
      if circuitWasm.Some? {
        return circuitWasm.value;
      }
      w := fetcher.Fetch(SnarkJs, WasmName(algorithm));
      circuitWasm := Some(w);
      wasmFetches := wasmFetches + 1;
    }

    /** `zkey ||= getZkey(); await zkey`: getZkey wraps the fetched bytes in a new `{ data }`. */
    method Zkey() returns (z: Result<ZkeyResult, Error>)
      requires Valid()
      modifies this, fetcher
      ensures Valid()
      ensures zkey == Some(z) && circuitWasm == old(circuitWasm) && wc == old(wc) && creations == old(creations)
      ensures old(zkey).Some? ==> z == old(zkey).value && fetcher.requests == old(fetcher.requests)
      ensures old(zkey).None? ==>
        ZkeyFetched(algorithm, old(fetcher.requests), fetcher.requests, z) &&
        (z.Ok? ==> fresh(z.value) && z.value.json == None)
    {
      if zkey.Some? {
        return zkey.value;
      }
      var data := fetcher.Fetch(SnarkJs, ZkeyName(algorithm));
      if data.Err? {
        z := Err(data.error);
      } else {
        var obj := new ZkeyResult(data.value);
        z := Ok(obj);
      }
      zkey := Some(z);
      zkeyFetches := zkeyFetches + 1;
    }

    /**
     * `wc ||= (async () => { ... })(); await wc`: when getWtnsCalculator
     * exists, install a Memory subclass fixed at five pages, await the wasm,
     * create the calculator, and restore the saved Memory whatever happens.
     */
    method WitnessCalculator() returns (c: Result<Option<Calculator>, Error>, ghost created: seq<SnarkCall>)
      requires Valid() && circuitWasm.Some?
      modifies this, snarkjs, globals
      ensures Valid()
      ensures wc == Some(c) && circuitWasm == old(circuitWasm) && zkey == old(zkey)
      ensures globals.memory == old(globals.memory)
      ensures snarkjs.calls == old(snarkjs.calls) + created
      ensures old(wc).Some? ==> c == old(wc).value && created == []
      ensures old(wc).None? ==>
        CalculatorCreated(snarkjs.hasWtnsCalculator, circuitWasm.value, old(globals.memory), created, c)
    {
      if wc.Some? {
        return wc.value, [];
      }
      if !snarkjs.hasWtnsCalculator {
        c := Ok(None);
        created := [];
      } else {
        var curMemory := globals.memory;
        globals.memory := FixedInitial(WitnessMemorySizePages, curMemory);
        var wasm := circuitWasm.value;
        if wasm.Err? {
          c := Err(wasm.error);
          created := [];
        } else {
          var calculator := snarkjs.GetWtnsCalculator(wasm.value, globals.memory);
          c := CalculatorOf(calculator);
          created := [SnarkCall.GetWtnsCalculator(wasm.value, FixedInitial(WitnessMemorySizePages, curMemory), calculator)];
          creations := creations + 1;
        }
        globals.memory := curMemory;
      }
      wc := Some(c);
    }

    /** generateWitness({ out, ...input }). */
    method GenerateWitness(input: ZkInput)
      returns (r: Result<seq<Byte>, Error>, ghost created: seq<SnarkCall>, ghost calculated: seq<SnarkCall>)
      requires Valid()
      modifies this, fetcher, snarkjs, globals
      ensures Valid()
      ensures zkey == old(zkey) && circuitWasm.Some? && wc.Some?
      ensures globals.memory == old(globals.memory)
      ensures old(circuitWasm).Some? ==> circuitWasm == old(circuitWasm) && fetcher.requests == old(fetcher.requests)
      ensures old(circuitWasm).None? ==>
        fetcher.requests == old(fetcher.requests) + [FetchRecord(SnarkJs, WasmName(algorithm), circuitWasm.value)]
      ensures old(wc).Some? ==> wc == old(wc) && created == []
      ensures old(wc).None? ==>
        CalculatorCreated(snarkjs.hasWtnsCalculator, circuitWasm.value, old(globals.memory), created, wc.value)
      ensures snarkjs.calls == old(snarkjs.calls) + created + calculated
      ensures Calculated(input, circuitWasm.value, wc.value, calculated, r)
    {
      var wasm := CircuitWasm();
      var c;
      c, created := WitnessCalculator();
      ghost var calls1 := snarkjs.calls;
      if c.Err? {
        return Err(c.error), created, [];
      }
      var signals := WithoutOut(input);
      if c.value.Some? {
        r := snarkjs.CalculateWithCalculator(signals, c.value.value);
        calculated := [SnarkCall.CalculateWithCalculator(signals, c.value.value, r)];
      } else {
        if wasm.Err? {
          return Err(wasm.error), created, [];
        }
        r := snarkjs.Calculate(signals, wasm.value);
        calculated := [SnarkCall.Calculate(signals, wasm.value, r)];
      }
    }

    /** groth16Prove: snarkjs.groth16.prove with the cached zkey's data. */
    method Groth16Prove(wtns: seq<Byte>) returns (r: Result<SnarkProof, Error>)
      requires Valid()
      modifies this, fetcher, snarkjs
      ensures Valid()
      ensures zkey.Some? && circuitWasm == old(circuitWasm) && wc == old(wc)
      ensures old(zkey).Some? ==> zkey == old(zkey) && fetcher.requests == old(fetcher.requests)
      ensures old(zkey).None? ==> ZkeyFetched(algorithm, old(fetcher.requests), fetcher.requests, zkey.value)
      ensures zkey.value.Err? ==> r == Err(zkey.value.error) && snarkjs.calls == old(snarkjs.calls)
      ensures zkey.value.Ok? ==>
        snarkjs.calls == old(snarkjs.calls) + [SnarkCall.Groth16Prove(zkey.value.value.data, wtns, r)]
    {
      var z := Zkey();
      if z.Err? {
        return Err(z.error);
      }
      r := snarkjs.Groth16Prove(z.value.data, wtns);
    }

    /**
     * groth16Verify: with the cached zkey, export its verification key unless
     * one is stored on it already, store it, and verify with it.
     */
    method Groth16Verify(publicSignals: seq<seq<Bit>>, proof: SnarkProof) returns (r: Result<bool, Error>)
      requires Valid()
      modifies this, fetcher, snarkjs, ZkeyObject()
      ensures Valid()
      ensures zkey.Some? && circuitWasm == old(circuitWasm) && wc == old(wc)
      ensures old(zkey).Some? ==> zkey == old(zkey) && fetcher.requests == old(fetcher.requests)
      ensures old(zkey).None? ==> ZkeyFetched(algorithm, old(fetcher.requests), fetcher.requests, zkey.value)
      ensures zkey.value.Err? ==> r == Err(zkey.value.error) && snarkjs.calls == old(snarkjs.calls)
      ensures zkey.value.Ok? ==>
        var z := zkey.value.value;
        var n := |old(snarkjs.calls)|;
        |snarkjs.calls| >= n && snarkjs.calls[..n] == old(snarkjs.calls) &&
        if old(zkey).Some? && old(z.json).Some? then
          z.json == old(z.json) &&
          snarkjs.calls == old(snarkjs.calls) + [SnarkCall.Groth16Verify(z.json.value, publicSignals, proof, r)]
        else
          |snarkjs.calls| >= n + 1 &&
          snarkjs.calls[n].ExportVerificationKey? && snarkjs.calls[n].zkey == z.data &&
          var vk := snarkjs.calls[n].vk;
          if vk.Err? then
            r == Err(vk.error) && z.json == None && |snarkjs.calls| == n + 1
          else
            z.json == Some(vk.value) &&
            snarkjs.calls == old(snarkjs.calls) + [snarkjs.calls[n], SnarkCall.Groth16Verify(vk.value, publicSignals, proof, r)]
    {
      var z := Zkey();
      if z.Err? {
        return Err(z.error);
      }
      var zkeyResult := z.value;
      if zkeyResult.json.None? {
        var vk := snarkjs.ExportVerificationKey(zkeyResult.data);
        if vk.Err? {
          return Err(vk.error);
        }
        zkeyResult.json := Some(vk.value);
        zkeyResult.exports := zkeyResult.exports + 1;
      }
      r := snarkjs.Groth16Verify(zkeyResult.json.value, publicSignals, proof);
    }

    /** release: drop all three caches, so the next call fetches and creates afresh. */
    method Release()
      requires Valid()
      modifies this
      ensures Valid()
      ensures zkey == None && circuitWasm == None && wc == None
      ensures wasmFetches == 0 && zkeyFetches == 0 && creations == 0
    {
      zkey := None;
      circuitWasm := None;
      wc := None;
      wasmFetches := 0;
      zkeyFetches := 0;
      creations := 0;
    }
  }
}
