/** The inputs both proving operators accept. */
module ZkTypes {
  import opened BitCodec

  /**
   * The witness input handed to `generateWitness`: key and nonce as rows of
   * bits, the counter as bits, the chunk's input (`in`) and output (`out`)
   * as rows of bits.
   */
  datatype ZkInput = ZkInput(
    key: seq<seq<Bit>>,
    nonce: seq<seq<Bit>>,
    counter: seq<Bit>,
    data: seq<seq<Bit>>,
    out: seq<seq<Bit>>)

  /** The signals the witness calculator receives: the input without `out`. */
  datatype CircuitInput = CircuitInput(
    key: seq<seq<Bit>>,
    nonce: seq<seq<Bit>>,
    counter: seq<Bit>,
    data: seq<seq<Bit>>)

  /** `const { out, ...input } = zkInput`. */
  function WithoutOut(i: ZkInput): (c: CircuitInput)
    ensures c.key == i.key && c.nonce == i.nonce && c.counter == i.counter && c.data == i.data
  {
    CircuitInput(i.key, i.nonce, i.counter, i.data)
  }
}
