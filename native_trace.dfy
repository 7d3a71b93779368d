/**
 * The ownership discipline for the buffers the Go prover allocates: in the
 * trace of native calls, every prove is followed by the decode and the free
 * of the buffer it returned, and nothing else decodes or frees.
 */
module NativeTrace {
  import opened BitCodec
  import opened Host

  /**
   * A native call trace in which every `prove` is immediately followed by one
   * decode of the buffer it returned and one free of that buffer, and no other
   * decode or free occurs.
   */
  predicate Balanced(calls: seq<NativeCall>)
    decreases |calls|
  {
    if calls == [] then true
    else
      match calls[0]
      case Prove(_, ret) =>
        |calls| >= 3 && calls[1].Decode? && calls[1].ptr == ret.r0 && calls[1].len == ret.r1 &&
        calls[2] == NativeCall.Free(ret.r0) && Balanced(calls[3..])
      case Decode(_, _, _) => false
      case Free(_) => false
      case _ => Balanced(calls[1..])
  }

  /** A call that neither proves nor touches a Go-owned buffer. */
  predicate IsSetupCall(c: NativeCall)
  {
    !c.Prove? && !c.Decode? && !c.Free?
  }

  predicate SetupCalls(calls: seq<NativeCall>)
  {
    forall k :: 0 <= k < |calls| ==> IsSetupCall(calls[k])
  }

  lemma {:induction false} SetupBalanced(calls: seq<NativeCall>)
    requires SetupCalls(calls)
    ensures Balanced(calls)
  {
    if calls != [] {
      assert SetupCalls(calls[1..]) by {
        forall k | 0 <= k < |calls[1..]| ensures IsSetupCall(calls[1..][k]) {
          assert calls[1..][k] == calls[k + 1];
        }
      }
      SetupBalanced(calls[1..]);
    }
  }

  lemma {:induction false} BalancedConcat(a: seq<NativeCall>, b: seq<NativeCall>)
    requires Balanced(a) && Balanced(b)
    ensures Balanced(a + b)
    decreases |a|
  {
    if a != [] {
      assert (a + b)[0] == a[0];
      if a[0].Prove? {
        assert (a + b)[1] == a[1] && (a + b)[2] == a[2];
        assert (a + b)[3..] == a[3..] + b;
        BalancedConcat(a[3..], b);
      } else {
        assert (a + b)[1..] == a[1..] + b;
        BalancedConcat(a[1..], b);
      }
    } else {
      assert a + b == b;
    }
  }

  /** Appending a call that touches no Go buffer keeps a trace balanced. */
  lemma BalancedSetupSnoc(calls: seq<NativeCall>, c: NativeCall)
    requires Balanced(calls) && IsSetupCall(c)
    ensures Balanced(calls + [c])
  {
    assert Balanced([c]) by {
      assert [c][1..] == [];
    }
    BalancedConcat(calls, [c]);
  }

  /** Appending a prove with the decode and the free of its buffer keeps a trace balanced. */
  lemma BalancedProveSnoc(calls: seq<NativeCall>, params: GoSlice, ret: ProveReturn, bytes: seq<Byte>)
    requires Balanced(calls)
    ensures Balanced(calls + [NativeCall.Prove(params, ret), NativeCall.Decode(ret.r0, ret.r1, bytes), NativeCall.Free(ret.r0)])
  {
    var triple := [NativeCall.Prove(params, ret), NativeCall.Decode(ret.r0, ret.r1, bytes), NativeCall.Free(ret.r0)];
    assert Balanced(triple) by {
      assert triple[3..] == [];
    }
    BalancedConcat(calls, triple);
  }

  /** Every prove is followed by the decode and the free of the buffer it returned. */
  lemma {:induction false} BalancedProveIsFreed(calls: seq<NativeCall>, k: nat)
    requires Balanced(calls) && k < |calls| && calls[k].Prove?
    ensures k + 2 < |calls|
    ensures calls[k + 1].Decode? && calls[k + 1].ptr == calls[k].result.r0 && calls[k + 1].len == calls[k].result.r1
    ensures calls[k + 2] == NativeCall.Free(calls[k].result.r0)
    decreases |calls|
  {
    if k > 0 {
      if calls[0].Prove? {
        assert k >= 3;
        BalancedProveIsFreed(calls[3..], k - 3);
      } else {
        BalancedProveIsFreed(calls[1..], k - 1);
      }
    }
  }

  /** Every free releases the buffer of the prove two calls earlier, so no buffer is freed twice. */
  lemma {:induction false} BalancedFreeFollowsProve(calls: seq<NativeCall>, k: nat)
    requires Balanced(calls) && k < |calls| && calls[k].Free?
    ensures k >= 2 && calls[k - 2].Prove? && calls[k - 2].result.r0 == calls[k].ptr
    decreases |calls|
  {
    if calls[0].Prove? {
      if k >= 3 {
        BalancedFreeFollowsProve(calls[3..], k - 3);
      }
    } else {
      BalancedFreeFollowsProve(calls[1..], k - 1);
    }
  }

  lemma SetupConcat(a: seq<NativeCall>, b: seq<NativeCall>)
    requires SetupCalls(a) && SetupCalls(b)
    ensures SetupCalls(a + b)
  {
    forall k | 0 <= k < |a + b| ensures IsSetupCall((a + b)[k]) {
      if k >= |a| { assert (a + b)[k] == b[k - |a|]; }
    }
  }
}
