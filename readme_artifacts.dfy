/** The integer reference code of the artifact generator: the batch (7,5) encoder, the
    zero tail and the precomputed trellis tables used by the hard-decision decoder. */
module ReadmeArtifacts {
  import opened ConvCode

  /** Batch encoder: a three-bit register takes each input bit in at the bottom and the
      two generator parities of the register are appended, v1 before v0. */
  method ConvEncode75(bits: seq<Bit>) returns (out: seq<Bit>)
    ensures |out| == 2 * |bits|
    ensures out == Encode(bits)
    ensures forall t :: 0 <= t < |bits| ==> (out[2 * t], out[2 * t + 1]) == Window(bits, t)
  {
    var state: nat := 0;
    out := [];
    for i := 0 to |bits|
      invariant state < 8 && state % 4 == EndState(bits[..i])
      invariant out == Encode(bits[..i])
    {
      var b := bits[i];
      RegisterStep(state, b);
      EdgeOutputs(state % 4, b);
      EncodeExtend(bits, i);
      state := Shift(state, b) % 8;
      var v1 := MaskedParity(state, G1);
      var v0 := MaskedParity(state, G2);
      out := out + [v1, v0];
    }
    assert bits[..|bits|] == bits;
    forall t | 0 <= t < |bits|
      ensures (out[2 * t], out[2 * t + 1]) == Window(bits, t)
    {
      EncodeWindow(bits, t);
    }
  }

  /** Shifting an input into the three-bit register keeps the edge's register, and its low
      two bits are the edge's next state. */
  lemma RegisterStep(reg: nat, b: Bit)
    requires reg < 8
    ensures Shift(reg, b) % 8 == Register(reg % 4, b)
    ensures Shift(reg, b) % 8 % 4 == NextState(reg % 4, b)
  {
  }

  /** Appends k - 1 zero input bits (K - 1 = 2 by default). */
  function AddTail(bits: seq<Bit>, k: nat): (r: seq<Bit>)
    requires k >= 1
    ensures |r| == |bits| + k - 1 && r[..|bits|] == bits
    ensures forall i :: |bits| <= i < |r| ==> r[i] == 0
  {
    bits + Zeros(k - 1)
  }

  /** With the default K the tail drives the trellis back to state 0, whatever the payload. */
  lemma AddTailFlushes(bits: seq<Bit>)
    ensures EndState(AddTail(bits, K)) == 0
  {
    ZeroTailFlushes(bits, K - 1);
  }

  /** The precomputed tables: NEXT_STATE[s, u] and OUT_BITS[s, u] = (v1, v0). */
  ghost predicate TrellisTables(nextState: array2<State>, outBits: array3<Bit>)
    reads nextState, outBits
  {
    nextState.Length0 == NumStates && nextState.Length1 == 2 &&
    outBits.Length0 == NumStates && outBits.Length1 == 2 && outBits.Length2 == 2 &&
    forall s: State, u: Bit ::
      nextState[s, u] == NextState(s, u) && outBits[s, u, 0] == Out1(s, u) && outBits[s, u, 1] == Out0(s, u)
  }

  /** Fills the trellis tables state by state and input by input. */
  method Precompute() returns (nextState: array2<State>, outBits: array3<Bit>)
    ensures fresh(nextState) && fresh(outBits)
    ensures TrellisTables(nextState, outBits)
  {
    nextState := new State[NumStates, 2];
    outBits := new Bit[NumStates, 2, 2];
    for s := 0 to NumStates
      invariant forall s': State, u: Bit :: s' < s ==>
        nextState[s', u] == NextState(s', u) && outBits[s', u, 0] == Out1(s', u) && outBits[s', u, 1] == Out0(s', u)
    {
      for u := 0 to 2
        invariant forall s': State, u': Bit :: (s' < s || (s' == s && u' < u)) ==>
          nextState[s', u'] == NextState(s', u') && outBits[s', u', 0] == Out1(s', u') && outBits[s', u', 1] == Out0(s', u')
      {
        var newShift := Shift(s, u) % 8;
        EdgeOutputs(s, u);
        var v1 := MaskedParity(newShift, G1);
        var v0 := MaskedParity(newShift, G2);
        nextState[s, u] := Shift(s, u) % 4;
        outBits[s, u, 0], outBits[s, u, 1] := v1, v0;
      }
    }
  }
}
