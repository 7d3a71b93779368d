/**
 * What each step of the native-backend operator (js/src/gnark/operator.ts)
 * leaves in the fetch log and in the trace of native calls.
 */
module GnarkProtocol {
  import opened Wrappers
  import opened Config
  import opened ZkTypes
  import opened Host
  import opened GnarkUtils

  /**
   * What a first initialisation did, given the fetch log `f0` and the native
   * trace `before` it started from: it asked for the 'gnark' pk and then the
   * r1cs; if both arrived it called InitAlgorithm once with the cipher's id and
   * both slices, resolved with the library and marked the operator initialised;
   * otherwise it rejected with the first failure and made no native call.
   */
  ghost predicate FirstInit(algorithm: Algorithm, lib: GnarkLib, f0: seq<FetchRecord>, requests: seq<FetchRecord>,
                            before: seq<NativeCall>, calls: seq<NativeCall>, r: Result<GnarkLib, Error>, done: bool)
  {
    |requests| == |f0| + 2 && requests[..|f0|] == f0 &&
    var pk, r1cs := requests[|f0|], requests[|f0| + 1];
    pk.engine == Gnark && pk.filename == PkName(algorithm) &&
    r1cs.engine == Gnark && r1cs.filename == R1csName(algorithm) &&
    if pk.result.Ok? && r1cs.result.Ok? then
      r == Ok(lib) && done &&
      |calls| == |before| + 1 && calls[..|before|] == before &&
      calls[|before|].InitAlgorithm? &&
      calls[|before|].id == CONFIG(algorithm).index &&
      calls[|before|].pk == SliceOf(pk.result.value) &&
      calls[|before|].r1cs == SliceOf(r1cs.result.value)
    else
      r == Err(if pk.result.Err? then pk.result.error else r1cs.result.error) &&
      !done && calls == before
  }

  /**
   * What initGnark did once the shared library settled as `lib`: after a failed
   * load, or on an operator already initialised (`wasDone`), it resolved with
   * `lib` and fetched, called and changed nothing; otherwise it was a first
   * initialisation.
   */
  ghost predicate InitOutcome(algorithm: Algorithm, lib: Result<GnarkLib, Error>, wasDone: bool,
                              f0: seq<FetchRecord>, requests: seq<FetchRecord>,
                              before: seq<NativeCall>, calls: seq<NativeCall>, r: Result<GnarkLib, Error>, done: bool)
  {
    if lib.Err? || wasDone then
      r == lib && done == wasDone && calls == before && requests == f0
    else
      FirstInit(algorithm, lib.value, f0, requests, before, calls, r, done)
  }

  /**
   * From position `n` on, the trace holds exactly one prove over `params`,
   * the decode of the (r0, r1) it returned, and the free of r0.
   */
  ghost predicate ProveCalls(calls: seq<NativeCall>, n: nat, params: GoSlice)
  {
    |calls| == n + 3 &&
    calls[n].Prove? && calls[n].params == params &&
    calls[n + 1].Decode? && calls[n + 1].ptr == calls[n].result.r0 && calls[n + 1].len == calls[n].result.r1 &&
    calls[n + 2] == NativeCall.Free(calls[n].result.r0)
  }

  /**
   * From position `n` on, the trace holds exactly one verify over `params`,
   * and the answer is whether the byte it returned is 1.
   */
  ghost predicate VerifyCall(calls: seq<NativeCall>, n: nat, params: GoSlice, r: Result<bool, Error>)
  {
    |calls| == n + 1 && calls[n].Verify? && calls[n].params == params && r == Ok(calls[n].ret == 1)
  }
}
